/** Evicting checkpoint files: repeatedly the cheapest entry, until the rest fits the budget. */
module KvEvict {
  import opened Options
  import KvHeader

  datatype Entry = Entry(
    sha: string, quantBits: int, tokens: nat, hits: nat, ctxSize: nat,
    createdAt: nat, lastUsed: nat, textBytes: nat, fileSize: nat)

  // How hits decay with age, as a function of the seconds since last use.
  type Decay = f: nat -> real | forall n :: 0.0 < f(n) <= 1.0 witness (n: nat) => 1.0

  const MIN_EFFECTIVE_HITS := 0.01

  // A score; the protected one is above every other.
  datatype Score = Finite(r: real) | Top

  predicate Less(a: Score, b: Score) {
    if a.Top? then false else if b.Top? then true else a.r < b.r
  }

  // What is fixed during one eviction run.
  datatype Policy = Policy(protectedSha: Option<string>, now: nat, decay: Decay)

  function EffectiveHits(e: Entry, p: Policy): real {
    var usedAt := if e.lastUsed != 0 then e.lastUsed else e.createdAt;
    if usedAt == 0 then 0.0
    else if p.now > usedAt then
      var hits := e.hits as real * p.decay(p.now - usedAt);
      if hits < MIN_EFFECTIVE_HITS then 0.0 else hits
    else e.hits as real
  }

  function ScoreOf(e: Entry, p: Policy): Score {
    if e.fileSize == 0 then Finite(0.0)
    else if p.protectedSha == Some(e.sha) then Top
    else Finite((EffectiveHits(e, p) + 1.0) * e.tokens as real / e.fileSize as real)
  }

  /** `a` goes before `b`: cheaper, or as cheap and used longer ago. */
  predicate Before(a: Entry, b: Entry, p: Policy) {
    Less(ScoreOf(a, p), ScoreOf(b, p)) || (ScoreOf(a, p) == ScoreOf(b, p) && a.lastUsed < b.lastUsed)
  }

  predicate NotAfter(a: Entry, b: Entry, p: Policy) {
    !Before(b, a, p)
  }

  /** The first entry that no other goes before. */
  function Victim(es: seq<Entry>, p: Policy): (v: nat)
    requires es != []
    ensures v < |es|
  {
    if |es| == 1 then 0
    else
      var v := Victim(es[..|es| - 1], p);
      if Before(es[|es| - 1], es[v], p) then |es| - 1 else v
  }

  lemma {:induction false} VictimIsCheapest(es: seq<Entry>, p: Policy)
    requires es != []
    ensures forall i :: 0 <= i < |es| ==> NotAfter(es[Victim(es, p)], es[i], p)
    decreases |es|
  {
    hide ScoreOf;
    if |es| > 1 {
      var init := es[..|es| - 1];
      VictimIsCheapest(init, p);
      forall i | 0 <= i < |es|
        ensures NotAfter(es[Victim(es, p)], es[i], p)
      {
        if i < |es| - 1 { assert NotAfter(init[Victim(init, p)], init[i], p); }
      }
    }
  }

  function Total(es: seq<Entry>): nat {
    if es == [] then 0 else es[0].fileSize + Total(es[1..])
  }

  function Without<T>(es: seq<T>, v: nat): seq<T>
    requires v < |es|
  {
    es[..v] + es[v + 1..]
  }

  lemma {:induction false} TotalAppend(a: seq<Entry>, b: seq<Entry>)
    ensures Total(a + b) == Total(a) + Total(b)
  {
    if a == [] {
      assert a + b == b;
    } else {
      assert (a + b)[1..] == a[1..] + b;
      TotalAppend(a[1..], b);
    }
  }

  lemma TotalWithout(es: seq<Entry>, v: nat)
    requires v < |es|
    ensures Total(Without(es, v)) + es[v].fileSize == Total(es)
  {
    hide Total;
    assert es == es[..v] + ([es[v]] + es[v + 1..]);
    TotalAppend(es[..v], [es[v]] + es[v + 1..]);
    TotalAppend(es[..v], es[v + 1..]);
    TotalCons(es[v], es[v + 1..]);
  }

  datatype Run = Run(kept: seq<Entry>, deleted: seq<Entry>, failed: Option<Entry>)

  /** The eviction loop: what is kept in the index, what was deleted from disk in order, and
      the entry whose deletion failed, which ends the run. */
  function Evict(es: seq<Entry>, budget: nat, p: Policy, canUnlink: set<string>): Run
    decreases |es|
  {
    if Total(es) <= budget || es == [] then Run(es, [], None)
    else
      var v := Victim(es, p);
      if es[v].sha !in canUnlink then Run(Without(es, v), [], Some(es[v]))
      else
        var r := Evict(Without(es, v), budget, p, canUnlink);
        r.(deleted := [es[v]] + r.deleted)
  }

  ghost predicate Distinct(es: seq<Entry>) {
    forall i, j :: 0 <= i < j < |es| ==> es[i].sha != es[j].sha
  }

  ghost predicate AllUnlinkable(es: seq<Entry>, canUnlink: set<string>) {
    forall i :: 0 <= i < |es| ==> es[i].sha in canUnlink
  }

  lemma MultisetWithout(es: seq<Entry>, v: nat)
    requires v < |es|
    ensures multiset(es) == multiset(Without(es, v)) + multiset{es[v]}
  {
    assert es == es[..v] + [es[v]] + es[v + 1..];
  }

  /** Nothing is lost or invented: every entry is kept, deleted, or the one that failed. */
  lemma {:induction false} EvictConserves(es: seq<Entry>, budget: nat, p: Policy, canUnlink: set<string>)
    ensures var r := Evict(es, budget, p, canUnlink);
            multiset(r.kept) + multiset(r.deleted) + (if r.failed.Some? then multiset{r.failed.value} else multiset{})
            == multiset(es)
    decreases |es|
  {
    hide Victim, Total, Without;
    if Total(es) > budget && es != [] {
      var v := Victim(es, p);
      MultisetWithout(es, v);
      if es[v].sha in canUnlink {
        EvictConserves(Without(es, v), budget, p, canUnlink);
        var s := Evict(Without(es, v), budget, p, canUnlink);
        assert multiset([es[v]] + s.deleted) == multiset{es[v]} + multiset(s.deleted);
      }
    }
  }

  lemma TotalCons(e: Entry, es: seq<Entry>)
    ensures Total([e] + es) == e.fileSize + Total(es)
  {
    assert ([e] + es)[1..] == es;
  }

  /** When deletions succeed the run ends within budget, having deleted nothing too much: in
      front of every deletion what was left did not fit. */
  lemma {:induction false} EvictMeetsBudget(es: seq<Entry>, budget: nat, p: Policy, canUnlink: set<string>)
    requires AllUnlinkable(es, canUnlink)
    ensures var r := Evict(es, budget, p, canUnlink);
            && r.failed.None? && Total(r.kept) <= budget
            && Total(r.kept) + Total(r.deleted) == Total(es)
            && forall k :: 0 <= k < |r.deleted| ==> Total(es) - Total(r.deleted[..k]) > budget
    decreases |es|
  {
    hide Victim, Total;
    NothingTotal();
    if Total(es) > budget && es != [] {
      var v := Victim(es, p);
      var rest := Without(es, v);
      TotalWithout(es, v);
      EvictMeetsBudget(rest, budget, p, canUnlink);
      var s := Evict(rest, budget, p, canUnlink);
      TotalCons(es[v], s.deleted);
      forall k | 0 <= k < |s.deleted| + 1
        ensures Total(es) - Total(([es[v]] + s.deleted)[..k]) > budget
      {
        if k > 0 {
          assert ([es[v]] + s.deleted)[..k] == [es[v]] + s.deleted[..k - 1];
          TotalCons(es[v], s.deleted[..k - 1]);
        } else {
          assert ([es[v]] + s.deleted)[..0] == [];
        }
      }
    }
  }

  lemma NothingTotal()
    ensures Total([]) == 0
  {
  }

  /** Every deleted entry is no dearer, in score and then time of use, than every survivor. */
  lemma {:induction false} EvictsCheapestFirst(es: seq<Entry>, budget: nat, p: Policy, canUnlink: set<string>)
    ensures var r := Evict(es, budget, p, canUnlink);
            && (forall x :: x in r.kept ==> x in es)
            && (forall d, x :: d in r.deleted && x in r.kept ==> NotAfter(d, x, p))
    decreases |es|
  {
    hide ScoreOf, NotAfter, Victim;
    if Total(es) > budget && es != [] {
      var v := Victim(es, p);
      VictimIsCheapest(es, p);
      EvictsCheapestFirst(Without(es, v), budget, p, canUnlink);
      forall x | x in Without(es, v)
        ensures x in es && NotAfter(es[v], x, p)
      {
      }
    }
  }

  // ---------- what an entry is worth ----------

  /** When an entry was last used, as far as it is known. */
  function UsedAt(e: Entry): nat {
    if e.lastUsed != 0 then e.lastUsed else e.createdAt
  }

  /** A later time of use never counts for less. */
  ghost predicate Antitone(decay: Decay) {
    forall m: nat, n: nat :: m <= n ==> decay(n) <= decay(m)
  }

  /** The entry's hits count at all: its time of use is known, and by now they have not decayed
      below 0.01. */
  ghost predicate HitsCount(e: Entry, p: Policy) {
    UsedAt(e) != 0 && (p.now <= UsedAt(e) || e.hits as real * p.decay(p.now - UsedAt(e)) >= 0.01)
  }

  /** `a` is worth more than `b`: at least as many hits, tokens per byte and, if it matters, as
      late a use, and one of them more where it makes a difference. */
  ghost predicate WorthMore(a: Entry, b: Entry, p: Policy) {
    && a.fileSize != 0 && b.fileSize != 0
    && p.protectedSha != Some(a.sha) && p.protectedSha != Some(b.sha)
    && a.hits >= b.hits && a.tokens * b.fileSize >= b.tokens * a.fileSize
    && a.lastUsed >= b.lastUsed
    && (UsedAt(a) == UsedAt(b) || (UsedAt(a) > UsedAt(b) && Antitone(p.decay)))
    && (|| a.tokens * b.fileSize > b.tokens * a.fileSize
        || (a.hits > b.hits && a.tokens > 0 && HitsCount(a, p))
        || a.lastUsed > b.lastUsed)
  }

  /** How much a hit still counts. */
  function Factor(e: Entry, p: Policy): real {
    if p.now > UsedAt(e) then p.decay(p.now - UsedAt(e)) else 1.0
  }

  function Clip(x: real): real {
    if x < 0.01 then 0.0 else x
  }

  lemma EffectiveIs(e: Entry, p: Policy)
    ensures EffectiveHits(e, p) == if UsedAt(e) == 0 then 0.0 else Clip(e.hits as real * Factor(e, p))
    ensures HitsCount(e, p) && e.hits > 0 ==> EffectiveHits(e, p) == e.hits as real * Factor(e, p)
  {
    if p.now > UsedAt(e) {
      assert Factor(e, p) == p.decay(p.now - UsedAt(e));
      if UsedAt(e) != 0 {
        var x := e.hits as real * p.decay(p.now - UsedAt(e));
        assert EffectiveHits(e, p) == if x < 0.01 then 0.0 else x;
      }
    } else {
      assert e.hits as real * 1.0 == e.hits as real;
      assert e.hits as real == 0.0 || e.hits as real >= 1.0;
    }
  }

  lemma FactorOrder(a: Entry, b: Entry, p: Policy)
    requires UsedAt(a) == UsedAt(b) || (UsedAt(a) > UsedAt(b) && Antitone(p.decay))
    ensures Factor(a, p) >= Factor(b, p) > 0.0
  {
  }

  lemma HitsOrder(a: Entry, b: Entry, p: Policy)
    requires a.hits >= b.hits && (UsedAt(a) == UsedAt(b) || (UsedAt(a) > UsedAt(b) && Antitone(p.decay)))
    ensures EffectiveHits(a, p) >= EffectiveHits(b, p) >= 0.0
    ensures a.hits > b.hits && HitsCount(a, p) ==> EffectiveHits(a, p) > EffectiveHits(b, p)
  {
    hide EffectiveHits, Factor, Antitone, HitsCount;
    EffectiveIs(a, p);
    EffectiveIs(b, p);
    FactorOrder(a, b, p);
    var (x, y) := (a.hits as real * Factor(a, p), b.hits as real * Factor(b, p));
    ProductOrder(a.hits as real, Factor(a, p), b.hits as real, Factor(b, p));
    assert x >= y >= 0.0;
    ClipOrder(x, y);
    if a.hits > b.hits && HitsCount(a, p) { Known(a, p); }
  }

  lemma ClipOrder(x: real, y: real)
    requires x >= y >= 0.0
    ensures Clip(x) >= Clip(y) >= 0.0 && x >= Clip(y)
  {
  }

  lemma Known(e: Entry, p: Policy)
    requires HitsCount(e, p)
    ensures UsedAt(e) != 0
  {
  }

  lemma ProductOrder(x: real, f: real, y: real, g: real)
    requires x >= y >= 0.0 && f >= g > 0.0
    ensures x * f >= y * g >= 0.0 && (x > y ==> x * f > y * g)
  {
    Distributed(x, f, g);
    Distributed(g, x, y);
    Sign(x - y, g);
    Sign(y, g);
    NotNegative(x, f - g);
  }

  lemma Distributed(a: real, b: real, c: real)
    ensures a * (b - c) == a * b - a * c
  {
  }

  lemma NotNegative(a: real, b: real)
    requires a >= 0.0 && b >= 0.0
    ensures a * b >= 0.0
  {
  }

  /** An entry worth more never goes first. */
  lemma {:induction false} WorthMoreGoesLater(a: Entry, b: Entry, p: Policy)
    requires WorthMore(a, b, p)
    ensures Before(b, a, p)
  {
    hide EffectiveHits, UsedAt, HitsCount, Antitone, Density, Before;
    HitsOrder(a, b, p);
    ScoreIsDensity(a, p);
    ScoreIsDensity(b, p);
    hide ScoreOf;
    var (x, y) := (EffectiveHits(a, p) + 1.0, EffectiveHits(b, p) + 1.0);
    DensityOrder(x, a.tokens, a.fileSize, y, b.tokens, b.fileSize);
    SameScore(a, b, p, Density(x, a.tokens, a.fileSize), Density(y, b.tokens, b.fileSize));
  }

  /** What a store with `s` tokens in `m` bytes scores when its hits count `x`. */
  function Density(x: real, s: nat, m: nat): real
    requires m > 0
  {
    x * s as real / m as real
  }

  lemma ScoreIsDensity(e: Entry, p: Policy)
    requires e.fileSize != 0 && p.protectedSha != Some(e.sha)
    ensures ScoreOf(e, p) == Finite(Density(EffectiveHits(e, p) + 1.0, e.tokens, e.fileSize))
  {
    hide EffectiveHits;
  }

  lemma SameScore(a: Entry, b: Entry, p: Policy, x: real, y: real)
    requires ScoreOf(a, p) == Finite(x) && ScoreOf(b, p) == Finite(y) && x >= y && (x > y || a.lastUsed > b.lastUsed)
    ensures Before(b, a, p)
  {
    hide ScoreOf;
  }

  /** Scores without division. */
  lemma DensityOrder(x: real, s: nat, m: nat, y: real, t: nat, n: nat)
    requires x >= y >= 1.0 && m > 0 && n > 0 && s * n >= t * m
    ensures Density(x, s, m) >= Density(y, t, n)
    ensures s * n > t * m || (x > y && s > 0) ==> Density(x, s, m) > Density(y, t, n)
  {
    RealProduct(s, n);
    RealProduct(t, m);
    RealDensity(x, s as real, m as real, y, t as real, n as real);
  }

  lemma RealProduct(s: nat, n: nat)
    ensures (s * n) as real == s as real * n as real
  {
  }

  lemma RealDensity(x: real, s: real, m: real, y: real, t: real, n: real)
    requires x >= y >= 1.0 && m > 0.0 && n > 0.0 && s >= 0.0 && t >= 0.0 && s * n >= t * m
    ensures x * s / m >= y * t / n
    ensures s * n > t * m || (x > y && s > 0.0) ==> x * s / m > y * t / n
  {
    Quotient(s, m, t, n);
    Rearranged(x, s, m);
    Rearranged(y, t, n);
    Scaled(x, y, s / m, t / n);
  }

  lemma Quotient(s: real, m: real, t: real, n: real)
    requires m > 0.0 && n > 0.0 && s >= 0.0 && t >= 0.0 && s * n >= t * m
    ensures s / m >= t / n >= 0.0 && (s * n > t * m ==> s / m > t / n) && (s > 0.0 ==> s / m > 0.0)
  {
    var (f, g) := (s / m, t / n);
    assert f * m == s && g * n == t;
    Sign(f, m);
    Sign(g, n);
    CrossDifference(f, g, m, n);
    Sign(m, n);
    Sign(f - g, m * n);
  }

  lemma CrossDifference(f: real, g: real, m: real, n: real)
    ensures (f - g) * (m * n) == (f * m) * n - (g * n) * m
  {
  }

  lemma Sign(d: real, k: real)
    requires k > 0.0
    ensures (d * k >= 0.0 <==> d >= 0.0) && (d * k > 0.0 <==> d > 0.0)
  {
  }

  lemma Rearranged(x: real, s: real, m: real)
    requires m > 0.0
    ensures x * s / m == x * (s / m)
  {
    var f := s / m;
    assert f * m == s;
    assert x * s == (x * f) * m;
  }

  lemma Scaled(x: real, y: real, f: real, g: real)
    requires x >= y >= 1.0 && f >= g >= 0.0
    ensures x * f >= y * g
    ensures f > g || (x > y && f > 0.0) ==> x * f > y * g
  {
    assert x * f - y * g == (x - y) * f + y * (f - g);
    assert (x - y) * f >= 0.0;
    assert y * (f - g) >= 0.0;
    if f > g { assert y * (f - g) > 0.0; }
    if x > y && f > 0.0 { assert (x - y) * f > 0.0; }
  }

  /** Nothing left over, in the index or still to be deleted, went before a deleted entry. */
  lemma {:induction false} DeletedInOrder(es: seq<Entry>, budget: nat, p: Policy, canUnlink: set<string>, i: nat)
    requires i < |Evict(es, budget, p, canUnlink).deleted|
    ensures var r := Evict(es, budget, p, canUnlink);
            && (forall x :: x in r.kept ==> NotAfter(r.deleted[i], x, p))
            && (forall x :: x in r.deleted[i..] ==> NotAfter(r.deleted[i], x, p))
            && (r.failed.Some? ==> NotAfter(r.deleted[i], r.failed.value, p))
            && forall x :: x in es ==> x in r.kept || x in r.deleted || r.failed == Some(x)
    decreases |es|
  {
    hide ScoreOf, NotAfter, Victim, Total;
    var v := Victim(es, p);
    var r := Evict(es, budget, p, canUnlink);
    AllAccounted(es, budget, p, canUnlink);
    if i == 0 {
      FirstDeleted(es, budget, p, canUnlink);
    } else {
      DeletedInOrder(Without(es, v), budget, p, canUnlink, i - 1);
      assert r.deleted[i..] == Evict(Without(es, v), budget, p, canUnlink).deleted[i - 1..];
    }
  }

  lemma {:induction false} FirstDeleted(es: seq<Entry>, budget: nat, p: Policy, canUnlink: set<string>)
    requires Evict(es, budget, p, canUnlink).deleted != []
    ensures es != [] && Evict(es, budget, p, canUnlink).deleted[0] == es[Victim(es, p)]
    ensures forall x :: x in es ==> NotAfter(es[Victim(es, p)], x, p)
    ensures var r := Evict(es, budget, p, canUnlink);
            (forall x :: x in r.kept ==> x in es) && (forall x :: x in r.deleted ==> x in es)
            && (r.failed.Some? ==> r.failed.value in es)
  {
    hide NotAfter, Victim, Total, Without;
    VictimIsCheapest(es, p);
    AllAccounted(es, budget, p, canUnlink);
  }

  lemma {:induction false} AllAccounted(es: seq<Entry>, budget: nat, p: Policy, canUnlink: set<string>)
    ensures var r := Evict(es, budget, p, canUnlink);
            forall x :: x in es <==> x in r.kept || x in r.deleted || r.failed == Some(x)
  {
    hide Evict;
    EvictConserves(es, budget, p, canUnlink);
    var r := Evict(es, budget, p, canUnlink);
    var failed := if r.failed.Some? then multiset{r.failed.value} else multiset{};
    var all := multiset(r.kept) + multiset(r.deleted) + failed;
    forall x | true ensures x in es <==> x in r.kept || x in r.deleted || r.failed == Some(x) {
      assert x in multiset(es) <==> x in all;
    }
  }

  /** Over a whole run: of two entries the one worth more is deleted only after the other. */
  lemma {:induction false} WorthMoreSurvives(es: seq<Entry>, budget: nat, p: Policy, canUnlink: set<string>,
                                             a: Entry, b: Entry, i: nat)
    requires b in es && WorthMore(a, b, p)
    requires i < |Evict(es, budget, p, canUnlink).deleted| && Evict(es, budget, p, canUnlink).deleted[i] == a
    ensures b in Evict(es, budget, p, canUnlink).deleted[..i]
    ensures Distinct(es) ==> b !in Evict(es, budget, p, canUnlink).kept
  {
    hide WorthMore, Before, Evict;
    var r := Evict(es, budget, p, canUnlink);
    DeletedInOrder(es, budget, p, canUnlink, i);
    WorthMoreGoesLater(a, b, p);
    assert !NotAfter(a, b, p);
    assert r.deleted == r.deleted[..i] + r.deleted[i..];
  }

  /** An empty file goes before every unprotected file that holds tokens. */
  lemma {:induction false} EmptyGoesFirst(es: seq<Entry>, budget: nat, p: Policy, canUnlink: set<string>,
                                          a: Entry, b: Entry, i: nat)
    requires b in es && b.fileSize == 0 && a.fileSize > 0 && a.tokens > 0
    requires i < |Evict(es, budget, p, canUnlink).deleted| && Evict(es, budget, p, canUnlink).deleted[i] == a
    ensures b in Evict(es, budget, p, canUnlink).deleted[..i]
  {
    var r := Evict(es, budget, p, canUnlink);
    DeletedInOrder(es, budget, p, canUnlink, i);
    if p.protectedSha != Some(a.sha) {
      SizedScore(a, p);
    }
    assert Before(b, a, p);
    assert !NotAfter(a, b, p);
    hide Evict;
    assert r.deleted == r.deleted[..i] + r.deleted[i..];
  }

  lemma SizedScore(a: Entry, p: Policy)
    requires a.fileSize > 0 && a.tokens > 0 && p.protectedSha != Some(a.sha)
    ensures Less(Finite(0.0), ScoreOf(a, p))
  {
    hide EffectiveHits;
    EffectiveNonnegative(a, p);
    var x := EffectiveHits(a, p) + 1.0;
    Quotient(a.tokens as real, a.fileSize as real, 0.0, 1.0);
    Rearranged(x, a.tokens as real, a.fileSize as real);
    Scaled(x, 1.0, a.tokens as real / a.fileSize as real, 0.0);
  }

  lemma EffectiveNonnegative(a: Entry, p: Policy)
    ensures EffectiveHits(a, p) >= 0.0
  {
    HitsOrder(a, a, p);
  }

  /** A failed deletion stops the run: only an entry that cannot be unlinked ends it early, and
      nothing that cannot be unlinked counts as deleted. */
  lemma {:induction false} FailedUnlinkStops(es: seq<Entry>, budget: nat, p: Policy, canUnlink: set<string>)
    ensures var r := Evict(es, budget, p, canUnlink);
            && (r.failed.Some? ==>
                  && r.failed.value.sha !in canUnlink
                  && forall x :: x in r.kept ==> NotAfter(r.failed.value, x, p))
            && (r.failed.None? ==> Total(r.kept) <= budget)
            && (forall d :: d in r.deleted ==> d.sha in canUnlink)
    decreases |es|
  {
    hide Victim, Total, NotAfter;
    NothingTotal();
    if Total(es) > budget && es != [] {
      var v := Victim(es, p);
      VictimIsCheapest(es, p);
      FailedUnlinkStops(Without(es, v), budget, p, canUnlink);
    }
  }

  // ---------- the protected entry ----------

  function SizeOfSha(es: seq<Entry>, sha: string): nat {
    if es == [] then 0 else if es[0].sha == sha then es[0].fileSize else SizeOfSha(es[1..], sha)
  }

  /** Protection is dropped for an entry that cannot fit on its own. */
  function Protect(es: seq<Entry>, budget: nat, sha: Option<string>): Option<string> {
    if sha.Some? && SizeOfSha(es, sha.value) > budget then None else sha
  }

  lemma {:induction false} SizeOfMember(es: seq<Entry>, i: nat)
    requires Distinct(es) && i < |es|
    ensures SizeOfSha(es, es[i].sha) == es[i].fileSize <= Total(es)
  {
    if i > 0 {
      assert es[0].sha != es[i].sha;
      forall a, b | 0 <= a < b < |es[1..]| ensures es[1..][a].sha != es[1..][b].sha {
        assert es[a + 1].sha != es[b + 1].sha;
      }
      SizeOfMember(es[1..], i - 1);
    }
  }

  lemma {:induction false} ProtectedNotVictim(es: seq<Entry>, i: nat, p: Policy)
    requires Distinct(es) && i < |es| && |es| > 1
    requires es[i].fileSize > 0 && p.protectedSha == Some(es[i].sha)
    ensures Victim(es, p) != i
  {
    VictimIsCheapest(es, p);
    var j := if i == 0 then 1 else 0;
    assert es[j].sha != es[i].sha;
    assert NotAfter(es[Victim(es, p)], es[j], p);
  }

  lemma DistinctWithout(es: seq<Entry>, v: nat)
    requires Distinct(es) && v < |es|
    ensures Distinct(Without(es, v))
  {
    var w := Without(es, v);
    forall a, b | 0 <= a < b < |w| ensures w[a].sha != w[b].sha {
      assert w[a] == es[if a < v then a else a + 1] && w[b] == es[if b < v then b else b + 1];
    }
  }

  /** A protected entry that fits the budget always survives. */
  lemma {:induction false} ProtectedSurvives(es: seq<Entry>, budget: nat, p: Policy, canUnlink: set<string>, i: nat)
    requires Distinct(es) && i < |es| && 0 < es[i].fileSize <= budget && p.protectedSha == Some(es[i].sha)
    ensures es[i] in Evict(es, budget, p, canUnlink).kept
    decreases |es|
  {
    hide Victim, ScoreOf, Total;
    assert |es| == 1 ==> Without(es, i) == [];
    if Total(es) > budget {
      NothingTotal();
      TotalWithout(es, i);
      if |es| > 1 {
        var v := Victim(es, p);
        ProtectedNotVictim(es, i, p);
        DistinctWithout(es, v);
        var rest := Without(es, v);
        var k := if i < v then i else i - 1;
        assert rest[k] == es[i];
        ProtectedSurvives(rest, budget, p, canUnlink, k);
      }
    }
  }

  /** A checkpoint that passed the final size check survives the eviction run right after its
      store, whatever else the directory holds and whatever the clock says. */
  lemma {:induction false} StoredCheckpointSurvives(
    es: seq<Entry>, i: nat, budget: nat, now: nat, decay: Decay, canUnlink: set<string>,
    text: nat, payload: nat, trailer: nat)
    requires 0 < budget <= KvHeader.U64_MAX && Distinct(es) && i < |es|
    requires KvHeader.FileSizeFits(budget, text, payload, trailer)
    requires es[i].fileSize == 52 + text + payload + trailer
    ensures var p := Policy(Protect(es, budget, Some(es[i].sha)), now, decay);
            es[i] in Evict(es, budget, p, canUnlink).kept
  {
    SizeOfMember(es, i);
    KvHeader.SizeCheckExact(budget, text, payload, trailer);
    ProtectedSurvives(es, budget, Policy(Some(es[i].sha), now, decay), canUnlink, i);
  }

  // ---------- the loop in place ----------

  class Index {
    var entries: seq<Entry>
    ghost var deleted: seq<Entry>

    constructor (es: seq<Entry>)
      ensures entries == es && deleted == []
    {
      entries, deleted := es, [];
    }

    method FindVictim(p: Policy) returns (victim: nat)
      requires entries != []
      ensures victim == Victim(entries, p)
    {
      hide ScoreOf;
      victim := 0;
      var best := ScoreOf(entries[0], p);
      var i := 1;
      assert entries[..1] == [entries[0]];
      while i < |entries|
        invariant 1 <= i <= |entries| && victim < i
        invariant victim == Victim(entries[..i], p) && best == ScoreOf(entries[victim], p)
      {
        var score := ScoreOf(entries[i], p);
        assert entries[..i + 1][..i] == entries[..i];
        if Less(score, best) || (score == best && entries[i].lastUsed < entries[victim].lastUsed) {
          victim, best := i, score;
        }
        i := i + 1;
      }
      assert entries[..i] == entries;
    }

    /** Delete the cheapest entries until the rest fits, keeping a running total.  A budget of
        zero means that there is none. */
    method EvictToBudget(budget: nat, protectedSha: Option<string>, now: nat, decay: Decay, canUnlink: set<string>)
      modifies this
      ensures budget == 0 ==> entries == old(entries) && deleted == old(deleted)
      ensures budget > 0 ==>
                var p := Policy(Protect(old(entries), budget, protectedSha), now, decay);
                var r := Evict(old(entries), budget, p, canUnlink);
                entries == r.kept && deleted == old(deleted) + r.deleted
    {
      hide Evict, Total;
      if budget == 0 { return; }
      var total := SumSizes();
      var sha := protectedSha;
      if sha.Some? {
        var protectedSize := FindSize(sha.value);
        if protectedSize > budget { sha := None; }
      }
      EvictLoop(budget, Policy(sha, now, decay), canUnlink, total);
    }

    method EvictLoop(budget: nat, p: Policy, canUnlink: set<string>, size: nat)
      requires size == Total(entries)
      modifies this
      ensures var r := Evict(old(entries), budget, p, canUnlink);
              entries == r.kept && deleted == old(deleted) + r.deleted
    {
      hide Victim, ScoreOf, Total;
      NothingTotal();
      var total := size;
      ghost var r := Evict(entries, budget, p, canUnlink);
      ghost var stopped := false;
      while total > budget && |entries| > 0
        invariant stopped ==> total == 0 && entries == r.kept && deleted == old(deleted) + r.deleted
        invariant !stopped ==> total == Total(entries)
        invariant !stopped ==>
            var s := Evict(entries, budget, p, canUnlink);
            s.kept == r.kept && deleted + s.deleted == old(deleted) + r.deleted
        decreases |entries|
      {
        var v := FindVictim(p);
        var e := entries[v];
        TotalWithout(entries, v);
        ghost var s := Evict(Without(entries, v), budget, p, canUnlink);
        if e.sha in canUnlink {
          total := if total >= e.fileSize then total - e.fileSize else 0;
          assert deleted + ([e] + s.deleted) == deleted + [e] + s.deleted;
          deleted := deleted + [e];
        } else {
          total := 0;
          stopped := true;
          assert deleted + [] == deleted;
        }
        entries := entries[..v] + entries[v + 1..];
      }
    }

    method SumSizes() returns (total: nat)
      ensures total == Total(entries)
    {
      total := 0;
      var i := 0;
      assert entries[0..] == entries;
      while i < |entries|
        invariant 0 <= i <= |entries|
        invariant total + Total(entries[i..]) == Total(entries)
      {
        assert entries[i..][1..] == entries[i + 1..];
        total := total + entries[i].fileSize;
        i := i + 1;
      }
    }

    method FindSize(sha: string) returns (size: nat)
      ensures size == SizeOfSha(entries, sha)
    {
      var i := 0;
      assert entries[0..] == entries;
      while i < |entries|
        invariant 0 <= i <= |entries|
        invariant SizeOfSha(entries, sha) == SizeOfSha(entries[i..], sha)
      {
        if entries[i].sha == sha {
          return entries[i].fileSize;
        }
        assert entries[i..][1..] == entries[i + 1..];
        i := i + 1;
      }
      return 0;
    }
  }
}
