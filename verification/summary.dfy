/** The report table: the ledger grouped by code, description and work order,
    with the pieces of each group summed. */
module Summary {
  import opened Wrappers
  import opened Catalog
  import opened Ledger

  /** The grouping key of the report. */
  datatype Key = Key(codigo: string, descripcion: Cell, ov: Cell)

  /** One report line: a key and the pieces counted under it. */
  datatype Group = Group(key: Key, piezas: nat)

  function KeyOf(e: Entry): Key {
    Key(e.codigo, e.descripcion, e.ov)
  }

  /** Pieces over the ledger entries with key `k`. */
  function KeySum(h: History, k: Key): nat {
    if |h| == 0 then 0
    else KeySum(h[..|h| - 1], k) + (if KeyOf(h[|h| - 1]) == k then h[|h| - 1].piezas else 0)
  }

  /** Pieces over all report lines. */
  function GroupsTotal(g: seq<Group>): nat {
    if |g| == 0 then 0 else GroupsTotal(g[..|g| - 1]) + g[|g| - 1].piezas
  }

  /** The keys the report lines carry. */
  function Keys(g: seq<Group>): set<Key> {
    set i | 0 <= i < |g| :: g[i].key
  }

  /** The keys the ledger entries carry. */
  function EntryKeys(h: History): set<Key> {
    set i | 0 <= i < |h| :: KeyOf(h[i])
  }

  /** No two report lines share a key. */
  predicate DistinctKeys(g: seq<Group>) {
    forall i, j :: 0 <= i < j < |g| ==> g[i].key != g[j].key
  }

  /** The report line carrying `k`, if any. */
  function Find(g: seq<Group>, k: Key): (r: Option<nat>)
    ensures r.Some? <==> k in Keys(g)
    ensures r.Some? ==> r.value < |g| && g[r.value].key == k
  {
    if |g| == 0 then None
    else if g[|g| - 1].key == k then Some(|g| - 1)
    else
      assert Keys(g) == Keys(g[..|g| - 1]) + {g[|g| - 1].key};
      Find(g[..|g| - 1], k)
  }

  /** Changing one line's pieces changes the total by the difference. */
  lemma {:induction false} GroupsTotalUpdate(g: seq<Group>, i: nat, x: Group)
    requires i < |g|
    ensures GroupsTotal(g[i := x]) + g[i].piezas == GroupsTotal(g) + x.piezas
  {
    var g' := g[i := x];
    if i < |g| - 1 {
      assert g'[..|g'| - 1] == g[..|g| - 1][i := x];
      GroupsTotalUpdate(g[..|g| - 1], i, x);
    } else {
      assert g'[..|g'| - 1] == g[..|g| - 1];
    }
  }

  /** Folds one entry into the report: its pieces go to the line with its
      key, or to a new last line when no line has that key yet. */
  function Add(g: seq<Group>, e: Entry): (r: seq<Group>)
    requires DistinctKeys(g)
    ensures DistinctKeys(r)
    ensures Keys(r) == Keys(g) + {KeyOf(e)}
    ensures GroupsTotal(r) == GroupsTotal(g) + e.piezas
    ensures |r| == |g| + (if KeyOf(e) in Keys(g) then 0 else 1)
    ensures |r| > |g| ==> r[|g|].key == KeyOf(e)
    ensures forall i :: 0 <= i < |g| ==> r[i].key == g[i].key
    ensures forall i :: 0 <= i < |r| ==>
              r[i].piezas == (if i < |g| then g[i].piezas else 0) + (if r[i].key == KeyOf(e) then e.piezas else 0)
  {
    match Find(g, KeyOf(e))
    case Some(i) =>
      var r := g[i := Group(g[i].key, g[i].piezas + e.piezas)];
      GroupsTotalUpdate(g, i, r[i]);
      assert Keys(r) == Keys(g) by {
        forall k | k in Keys(g) ensures k in Keys(r) {
          var j :| 0 <= j < |g| && g[j].key == k;
          assert r[j].key == k;
        }
      }
      r
    case None =>
      var r := g + [Group(KeyOf(e), e.piezas)];
      assert r[..|r| - 1] == g;
      assert Keys(r) == Keys(g) + {KeyOf(e)} by {
        forall k | k in Keys(r) ensures k in Keys(g) + {KeyOf(e)} {
          var j :| 0 <= j < |r| && r[j].key == k;
          if j < |g| { assert g[j].key == k; }
        }
        forall k | k in Keys(g) ensures k in Keys(r) {
          var j :| 0 <= j < |g| && g[j].key == k;
          assert r[j].key == k;
        }
        assert r[|g|].key == KeyOf(e);
      }
      r
  }

  /** The report: one line per key occurring in the ledger, in order of
      first occurrence, each with the pieces summed over its key. */
  function Summarize(h: History): (r: seq<Group>)
    ensures DistinctKeys(r)
    ensures Keys(r) == EntryKeys(h)
    ensures forall i :: 0 <= i < |r| ==> r[i].piezas == KeySum(h, r[i].key)
  {
    if |h| == 0 then []
    else
      var p := h[..|h| - 1];
      var e := h[|h| - 1];
      var g := Summarize(p);
      assert h == p + [e];
      EntryKeysAppend(p, e);
      AddSums(p, e, g);
      Add(g, e)
  }

  /** The keys of a ledger with one more entry: the old keys and the new
      entry's. */
  lemma EntryKeysAppend(p: History, e: Entry)
    ensures EntryKeys(p + [e]) == EntryKeys(p) + {KeyOf(e)}
  {
    var h := p + [e];
    forall k | k in EntryKeys(h) ensures k in EntryKeys(p) + {KeyOf(e)} {
      var j :| 0 <= j < |h| && KeyOf(h[j]) == k;
      if j < |p| { assert KeyOf(p[j]) == k; }
    }
    forall k | k in EntryKeys(p) ensures k in EntryKeys(h) {
      var j :| 0 <= j < |p| && KeyOf(p[j]) == k;
      assert KeyOf(h[j]) == k;
    }
    assert KeyOf(h[|p|]) == KeyOf(e);
  }

  /** Folding a new entry into a report that sums a ledger per key gives a
      report that sums the longer ledger per key. */
  lemma AddSums(p: History, e: Entry, g: seq<Group>)
    requires DistinctKeys(g) && Keys(g) == EntryKeys(p)
    requires forall i :: 0 <= i < |g| ==> g[i].piezas == KeySum(p, g[i].key)
    ensures forall i :: 0 <= i < |Add(g, e)| ==> Add(g, e)[i].piezas == KeySum(p + [e], Add(g, e)[i].key)
  {
    var r := Add(g, e);
    assert (p + [e])[..|p|] == p;
    forall i | 0 <= i < |r|
      ensures r[i].piezas == KeySum(p + [e], r[i].key)
    {
      if i >= |g| {
        KeySumAbsent(p, KeyOf(e));
      }
    }
  }

  /** A key that no ledger entry carries has no pieces. */
  lemma {:induction false} KeySumAbsent(h: History, k: Key)
    requires k !in EntryKeys(h)
    ensures KeySum(h, k) == 0
  {
    if |h| > 0 {
      var p := h[..|h| - 1];
      assert KeyOf(h[|h| - 1]) in EntryKeys(h);
      assert EntryKeys(p) <= EntryKeys(h) by {
        forall x | x in EntryKeys(p) ensures x in EntryKeys(h) {
          var j :| 0 <= j < |p| && KeyOf(p[j]) == x;
          assert KeyOf(h[j]) == x;
        }
      }
      KeySumAbsent(p, k);
    }
  }

  /** The report loses no piece and invents none: its lines add up to the
      ledger's total. */
  lemma {:induction false} SummaryPreservesTotal(h: History)
    ensures GroupsTotal(Summarize(h)) == Counted(h)
  {
    if |h| > 0 {
      SummaryPreservesTotal(h[..|h| - 1]);
    }
  }
}
