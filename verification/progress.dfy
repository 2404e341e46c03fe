/** The progress figure under the mascot: pieces counted in the session over
    the pieces expected for every work order the session has touched, as a
    percentage, and the clamp that turns it into the mascot's fill level. */
module Progress {
  import opened Wrappers
  import opened Catalog
  import opened Ledger
  import opened Audit

  /** The distinct work orders occurring in the ledger. */
  function Ovs(h: History): (r: set<Cell>)
    ensures forall i :: 0 <= i < |h| ==> h[i].ov in r
    ensures forall o :: o in r ==> exists i :: 0 <= i < |h| && h[i].ov == o
  {
    set i | 0 <= i < |h| :: h[i].ov
  }

  /** Expected pieces over the first `n` catalog lines whose work order is in
      `ovs`. */
  function ExpectedUpTo(cat: seq<Row>, ovs: set<Cell>, n: nat): nat
    requires n <= |cat|
  {
    if n == 0 then 0
    else ExpectedUpTo(cat, ovs, n - 1) + Due(cat, ovs, n - 1)
  }

  /** What line `k` adds to the expected total: its quantity when its work
      order is in `ovs`, nothing otherwise. */
  function Due(cat: seq<Row>, ovs: set<Cell>, k: nat): nat
    requires k < |cat|
  {
    if cat[k].ov in ovs then cat[k].cant else 0
  }

  /** Expected pieces over every catalog line whose work order is in `ovs`:
      none when no work order is touched, and at least the quantity of every
      line of a touched work order. */
  function Expected(cat: seq<Row>, ovs: set<Cell>): (n: nat)
    ensures ovs == {} ==> n == 0
    ensures forall j :: 0 <= j < |cat| && cat[j].ov in ovs ==> cat[j].cant <= n
  {
    ExpectedNothing(cat, |cat|);
    ExpectedCovers(cat, ovs, |cat|);
    ExpectedUpTo(cat, ovs, |cat|)
  }

  /** Touching more work orders never lowers the expected total. */
  lemma {:induction false} ExpectedGrows(cat: seq<Row>, ovs: set<Cell>, ovs': set<Cell>, n: nat)
    requires n <= |cat|
    requires ovs <= ovs'
    ensures ExpectedUpTo(cat, ovs, n) <= ExpectedUpTo(cat, ovs', n)
  {
    if n > 0 {
      ExpectedGrows(cat, ovs, ovs', n - 1);
    }
  }

  /** Every line of a touched work order adds its whole quantity to the
      expected total, and lines of other work orders add nothing. */
  lemma {:induction false} ExpectedCovers(cat: seq<Row>, ovs: set<Cell>, n: nat)
    requires n <= |cat|
    ensures forall j :: 0 <= j < n && cat[j].ov in ovs ==> cat[j].cant <= ExpectedUpTo(cat, ovs, n)
    ensures (forall j :: 0 <= j < n ==> cat[j].ov !in ovs) ==> ExpectedUpTo(cat, ovs, n) == 0
  {
    if n > 0 {
      ExpectedCovers(cat, ovs, n - 1);
    }
  }

  /** `p` is `a` as a percentage of `b`: non-negative, 0 when `b` is 0, and
      otherwise such that `p` percent of `b` is `a`. */
  predicate PercentOf(a: nat, b: nat, p: real) {
    && p >= 0.0
    && (b == 0 ==> p == 0.0)
    && (b > 0 ==> p * b as real == 100.0 * a as real)
  }

  /** `a` as a percentage of `b`; 0 when `b` is 0. */
  function Percent(a: nat, b: nat): (p: real)
    ensures PercentOf(a, b, p)
  {
    if b > 0 then (a as real / b as real) * 100.0 else 0.0
  }

  /** The progress percentage: the counted pieces as a percentage of the
      expected pieces of the touched work orders; 0 when nothing is
      expected. */
  function Avance(cat: seq<Row>, h: History): (p: real)
    ensures PercentOf(Counted(h), Expected(cat, Ovs(h)), p)
  {
    Percent(Counted(h), Expected(cat, Ovs(h)))
  }

  /** The mascot's fill level: the percentage clamped into [0, 100]. */
  function Fill(p: real): (r: real)
    ensures 0.0 <= r <= 100.0
    ensures 0.0 <= p <= 100.0 ==> r == p
    ensures p < 0.0 ==> r == 0.0
    ensures p > 100.0 ==> r == 100.0
  {
    var lo := if p > 0.0 then p else 0.0;
    if lo < 100.0 then lo else 100.0
  }

  /** The top inset of the "full" mascot picture, the part left uncovered. */
  function Inset(p: real): (r: real)
    ensures 0.0 <= r <= 100.0
    ensures r + Fill(p) == 100.0
  {
    100.0 - Fill(p)
  }

  /** Line `k` is the first catalog line carrying its own code, the one a
      scan of that code selects. */
  predicate IsFirst(cat: seq<Row>, k: nat)
    requires k < |cat|
  {
    FirstMatch(cat, cat[k].codigo) == Some(k)
  }

  /** The counted pieces charged to the first `n` catalog lines: each code's
      count goes to the first line with that code. */
  function AttributedUpTo(cat: seq<Row>, h: History, n: nat): nat
    requires n <= |cat|
  {
    if n == 0 then 0
    else AttributedUpTo(cat, h, n - 1) + Charged(cat, h, n - 1)
  }

  /** What line `k` is charged: the count of its code when it is the first
      line with that code, nothing otherwise. */
  function Charged(cat: seq<Row>, h: History, k: nat): nat
    requires k < |cat|
  {
    if IsFirst(cat, k) then Audited(h, cat[k].codigo) else 0
  }

  /** A new entry for a code the catalog has is charged to exactly one line,
      the first with its code. */
  lemma {:induction false} AttributedAppend(cat: seq<Row>, h: History, e: Entry, n: nat)
    requires n <= |cat|
    ensures AttributedUpTo(cat, h + [e], n)
            == AttributedUpTo(cat, h, n)
               + (if FirstMatch(cat, e.codigo).Some? && FirstMatch(cat, e.codigo).value < n then e.piezas else 0)
  {
    if n > 0 {
      AttributedAppend(cat, h, e, n - 1);
      var k := n - 1;
      assert h + [e] == Register(h, e.codigo, e.descripcion, e.piezas, e.ov);
      AuditedRegister(h, cat[k].codigo, e.codigo, e.descripcion, e.piezas, e.ov);
      assert (IsFirst(cat, k) && e.codigo == cat[k].codigo) <==> FirstMatch(cat, e.codigo) == Some(k);
    }
  }

  /** When every entry's code is in the catalog, the counted pieces are
      exactly the pieces charged to catalog lines. */
  lemma {:induction false} CountedIsAttributed(cat: seq<Row>, h: History)
    requires forall i :: 0 <= i < |h| ==> FirstMatch(cat, h[i].codigo).Some?
    ensures Counted(h) == AttributedUpTo(cat, h, |cat|)
  {
    if |h| == 0 {
      AttributedNone(cat, |cat|);
    } else {
      var p := h[..|h| - 1];
      CountedIsAttributed(cat, p);
      assert h == p + [h[|h| - 1]];
      AttributedAppend(cat, p, h[|h| - 1], |cat|);
    }
  }

  /** Nothing is charged to any line while the ledger is empty. */
  lemma {:induction false} AttributedNone(cat: seq<Row>, n: nat)
    requires n <= |cat|
    ensures AttributedUpTo(cat, [], n) == 0
  {
    if n > 0 {
      AttributedNone(cat, n - 1);
    }
  }

  /** In a sound ledger each line is charged no more than it is expected to
      hold, and only lines of touched work orders are charged at all. */
  lemma AttributedWithinExpected(cat: seq<Row>, h: History, n: nat)
    requires n <= |cat|
    requires Sound(cat, h)
    ensures AttributedUpTo(cat, h, n) <= ExpectedUpTo(cat, Ovs(h), n)
  {
    forall k | 0 <= k < n
      ensures Charged(cat, h, k) <= Due(cat, Ovs(h), k)
    {
      LineWithinExpected(cat, h, k);
    }
    ChargedWithinDue(cat, h, Ovs(h), n);
  }

  /** Summing line by line: when no line is charged more than it adds to the
      expected total, neither is any prefix of the catalog. */
  lemma {:induction false} ChargedWithinDue(cat: seq<Row>, h: History, ovs: set<Cell>, n: nat)
    requires n <= |cat|
    requires forall k :: 0 <= k < n ==> Charged(cat, h, k) <= Due(cat, ovs, k)
    ensures AttributedUpTo(cat, h, n) <= ExpectedUpTo(cat, ovs, n)
  {
    if n > 0 {
      ChargedWithinDue(cat, h, ovs, n - 1);
    }
  }

  /** In a sound ledger a line is charged no more than its expected quantity,
      and only when some entry carries its work order. */
  lemma LineWithinExpected(cat: seq<Row>, h: History, k: nat)
    requires k < |cat|
    requires Sound(cat, h)
    ensures Charged(cat, h, k) <= Due(cat, Ovs(h), k)
  {
    var code := cat[k].codigo;
    if IsFirst(cat, k) && Audited(h, code) > 0 {
      assert Audited(h, code) <= Limit(cat, code);
      var i := AuditedWitness(h, code);
      assert Recorded(cat, h[i]);
      assert h[i].ov == cat[k].ov;
    }
  }

  /** The guard's invariant bounds the counted total: a sound ledger never
      counts more pieces than its touched work orders expect. */
  lemma CountedWithinExpected(cat: seq<Row>, h: History)
    requires Sound(cat, h)
    ensures Counted(h) <= Expected(cat, Ovs(h))
  {
    assert forall i :: 0 <= i < |h| ==> Recorded(cat, h[i]);
    CountedIsAttributed(cat, h);
    AttributedWithinExpected(cat, h, |cat|);
  }

  /** Progress of a sound ledger lies in [0, 100]. */
  lemma AvanceAtMost100(cat: seq<Row>, h: History)
    requires Sound(cat, h)
    ensures 0.0 <= Avance(cat, h) <= 100.0
  {
    CountedWithinExpected(cat, h);
    var totalE := Expected(cat, Ovs(h));
    if totalE > 0 {
      PercentAtMost100(Counted(h), totalE);
    }
  }

  /** A part of a positive whole is at most 100 percent of it. */
  lemma PercentAtMost100(a: nat, b: nat)
    requires 0 < b && a <= b
    ensures Percent(a, b) <= 100.0
  {
    assert a as real / b as real <= 1.0;
  }

  /** For a sound ledger the clamp is never needed: the mascot shows the
      progress as computed, and the uncovered part is its complement. */
  lemma FillShowsAvance(cat: seq<Row>, h: History)
    requires Sound(cat, h)
    ensures Fill(Avance(cat, h)) == Avance(cat, h)
    ensures Inset(Avance(cat, h)) == 100.0 - Avance(cat, h)
  {
    AvanceAtMost100(cat, h);
  }

  /** Whatever the operator does from a fresh page, progress stays in
      [0, 100]. */
  lemma RunAvanceBounded(cat: seq<Row>, acts: seq<Action>)
    requires forall i :: 0 <= i < |acts| ==> Allowed(acts[i])
    ensures 0.0 <= Avance(cat, Run(cat, Start, acts).historial) <= 100.0
  {
    SoundEmpty(cat);
    RunSound(cat, Start, acts);
    AvanceAtMost100(cat, Run(cat, Start, acts).historial);
  }

  /** Progress is exactly 100 once the counted pieces reach the expected
      pieces of the touched work orders. */
  lemma AvanceComplete(cat: seq<Row>, h: History)
    requires Expected(cat, Ovs(h)) > 0
    requires Counted(h) == Expected(cat, Ovs(h))
    ensures Avance(cat, h) == 100.0
  {
    WholeIs100(Counted(h));
  }

  /** A positive whole is 100 percent of itself. */
  lemma WholeIs100(b: nat)
    requires 0 < b
    ensures Percent(b, b) == 100.0
  {
    assert b as real / b as real == 1.0;
  }

  /** After a reset the ledger holds no work order and progress is 0. */
  lemma AvanceAfterReset(cat: seq<Row>, s: Session)
    ensures Ovs(Step(cat, s, ResetAll).historial) == {}
    ensures Avance(cat, Step(cat, s, ResetAll).historial) == 0.0
  {
    AttributedNone(cat, 0);
  }

  /** No line is expected when no work order is touched. */
  lemma {:induction false} ExpectedNothing(cat: seq<Row>, n: nat)
    requires n <= |cat|
    ensures ExpectedUpTo(cat, {}, n) == 0
  {
    if n > 0 {
      ExpectedNothing(cat, n - 1);
    }
  }
}
