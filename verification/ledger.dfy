/** The audit ledger: the session's append-only list of confirmed counts, and
    the sums the form reads off it. */
module Ledger {
  import opened Catalog

  /** One confirmed count: product code, description, pieces found and work
      order. */
  datatype Entry = Entry(codigo: string, descripcion: Cell, piezas: nat, ov: Cell)

  /** The ledger, oldest entry first. */
  type History = seq<Entry>

  /** Confirming a count appends one entry and touches nothing else. */
  function Register(h: History, codigo: string, desc: Cell, piezas: nat, ov: Cell): (r: History)
    ensures |r| == |h| + 1
    ensures r[..|h|] == h
    ensures r[|h|].codigo == codigo && r[|h|].descripcion == desc
    ensures r[|h|].piezas == piezas && r[|h|].ov == ov
  {
    h + [Entry(codigo, desc, piezas, ov)]
  }

  /** Pieces already counted for `code`, whatever the work order of each
      entry. No code has more pieces than the whole ledger. */
  function Audited(h: History, code: string): (n: nat)
    ensures n <= Counted(h)
  {
    if |h| == 0 then 0
    else Audited(h[..|h| - 1], code) + (if h[|h| - 1].codigo == code then h[|h| - 1].piezas else 0)
  }

  /** All pieces counted in the session; none for an empty ledger. */
  function Counted(h: History): (n: nat)
    ensures |h| == 0 ==> n == 0
  {
    if |h| == 0 then 0 else Counted(h[..|h| - 1]) + h[|h| - 1].piezas
  }

  /** Every entry contributes its pieces to the session total, so a ledger of
      entries with at least one piece each holds at least as many pieces as
      entries. */
  lemma {:induction false} CountedCovers(h: History)
    ensures forall e :: e in h ==> e.piezas <= Counted(h)
    ensures (forall e :: e in h ==> e.piezas >= 1) ==> Counted(h) >= |h|
  {
    if |h| > 0 {
      var p := h[..|h| - 1];
      CountedCovers(p);
      assert h == p + [h[|h| - 1]];
      assert forall e :: e in p ==> e in h;
    }
  }

  /** The entries for `code`, in ledger order. */
  function Only(h: History, code: string): (r: History)
    ensures forall i :: 0 <= i < |r| ==> r[i].codigo == code
    ensures forall e :: e in r <==> e in h && e.codigo == code
    ensures forall e :: multiset(r)[e] == (if e.codigo == code then multiset(h)[e] else 0)
  {
    if |h| == 0 then []
    else
      assert h == h[..|h| - 1] + [h[|h| - 1]];
      Only(h[..|h| - 1], code) + (if h[|h| - 1].codigo == code then [h[|h| - 1]] else [])
  }

  /** The pieces of two ledgers laid end to end add up. */
  lemma {:induction false} CountedConcat(a: History, b: History)
    ensures Counted(a + b) == Counted(a) + Counted(b)
    decreases |b|
  {
    if |b| > 0 {
      assert (a + b)[..|a + b| - 1] == a + b[..|b| - 1];
      CountedConcat(a, b[..|b| - 1]);
    } else {
      assert a + b == a;
    }
  }

  /** The already-audited count of `code` is the sum of pieces over exactly
      the entries carrying `code`. */
  lemma {:induction false} AuditedIsSumOfOnly(h: History, code: string)
    ensures Audited(h, code) == Counted(Only(h, code))
  {
    if |h| > 0 {
      var last := h[|h| - 1];
      AuditedIsSumOfOnly(h[..|h| - 1], code);
      CountedConcat(Only(h[..|h| - 1], code), if last.codigo == code then [last] else []);
      assert Counted([last]) == last.piezas by {
        assert [last][..0] == [];
      }
    }
  }

  /** A new entry raises the count of its own code by its pieces and leaves
      the count of every other code as it was. */
  lemma AuditedRegister(h: History, code: string, codigo: string, desc: Cell, piezas: nat, ov: Cell)
    ensures Audited(Register(h, codigo, desc, piezas, ov), code)
            == Audited(h, code) + (if codigo == code then piezas else 0)
    ensures Counted(Register(h, codigo, desc, piezas, ov)) == Counted(h) + piezas
  {
    assert Register(h, codigo, desc, piezas, ov)[..|h|] == h;
  }

  /** Entries for other codes, whatever their work order, do not change the
      count of `code`. */
  lemma {:induction false} AuditedIgnoresOthers(h: History, extra: History, code: string)
    requires forall i :: 0 <= i < |extra| ==> extra[i].codigo != code
    ensures Audited(h + extra, code) == Audited(h, code)
    decreases |extra|
  {
    if |extra| > 0 {
      assert (h + extra)[..|h + extra| - 1] == h + extra[..|extra| - 1];
      AuditedIgnoresOthers(h, extra[..|extra| - 1], code);
    } else {
      assert h + extra == h;
    }
  }

  /** Every entry for `code` contributes its pieces to the code's count, and
      a code without entries has none. */
  lemma {:induction false} AuditedCovers(h: History, code: string)
    ensures forall e :: e in h && e.codigo == code ==> e.piezas <= Audited(h, code)
    ensures (forall e :: e in h ==> e.codigo != code) ==> Audited(h, code) == 0
  {
    if |h| > 0 {
      var p := h[..|h| - 1];
      AuditedCovers(p, code);
      assert h == p + [h[|h| - 1]];
      assert forall e :: e in p ==> e in h;
    }
  }

  /** A code with counted pieces has an entry in the ledger. */
  lemma {:induction false} AuditedWitness(h: History, code: string) returns (i: nat)
    requires Audited(h, code) > 0
    ensures i < |h| && h[i].codigo == code && h[i].piezas > 0
  {
    if h[|h| - 1].codigo == code && h[|h| - 1].piezas > 0 {
      i := |h| - 1;
    } else {
      i := AuditedWitness(h[..|h| - 1], code);
    }
  }

  /** `ya_auditado`, computed by walking the ledger once from the front. */
  method CountAudited(h: History, code: string) returns (n: nat)
    ensures n == Audited(h, code)
  {
    n := 0;
    var k := 0;
    while k < |h|
      invariant k <= |h|
      invariant n == Audited(h[..k], code)
    {
      assert h[..k + 1][..k] == h[..k];
      if h[k].codigo == code {
        n := n + h[k].piezas;
      }
      k := k + 1;
    }
    assert h[..|h|] == h;
  }
}
