/** A worked session: one work order "WO1" with a single line, code "A1",
    expected quantity 10. Six pieces are accepted (60 %), five more are
    refused because 6 + 5 > 10, four more are accepted (100 %). */
module Scenario {
  import opened Wrappers
  import opened Text
  import opened Catalog
  import opened Ledger
  import opened Audit
  import opened Progress

  const Sheet := [Row(Str("WO1"), "A1", Str("Producto A"), 10)]
  const Six := Entry("A1", Str("Producto A"), 6, Str("WO1"))
  const Four := Entry("A1", Str("Producto A"), 4, Str("WO1"))

  /** The scanned code selects the single line. */
  lemma FindsA1()
    ensures Strip("A1") == "A1"
    ensures Lookup(Sheet, "A1") == Some(0)
  {
    StripStripped("A1");
    assert FirstMatch(Sheet, "A1") == Some(0);
  }

  /** Six of ten pieces: accepted, and the scanner field is cleared. */
  lemma AcceptSix()
    ensures Step(Sheet, Session([], "A1"), Confirm(6)) == Session([Six], "")
    ensures Audited([Six], "A1") == 6
  {
    FindsA1();
    assert Audited([], "A1") == 0;
    assert [Six][..0] == [];
  }

  /** Five more would make eleven: refused, nothing changes, the code stays
      in the scanner field. */
  lemma RefuseFive()
    ensures Step(Sheet, Session([Six], "A1"), Confirm(5)) == Session([Six], "A1")
  {
    FindsA1();
    AcceptSix();
    assert Limit(Sheet, "A1") == 10;
  }

  /** Four more make exactly ten: accepted. */
  lemma AcceptFour()
    ensures Step(Sheet, Session([Six], "A1"), Confirm(4)) == Session([Six, Four], "")
    ensures Audited([Six, Four], "A1") == 10
  {
    FindsA1();
    AcceptSix();
    assert Limit(Sheet, "A1") == 10;
    assert [Six, Four][..1] == [Six];
  }

  /** Both entries belong to WO1, whose expected total is ten. */
  lemma ExpectedWO1()
    ensures Ovs([Six]) == {Str("WO1")} && Ovs([Six, Four]) == {Str("WO1")}
    ensures Expected(Sheet, {Str("WO1")}) == 10
  {
    forall o | o in Ovs([Six]) ensures o == Str("WO1") {
      var i :| 0 <= i < 1 && [Six][i].ov == o;
    }
    forall o | o in Ovs([Six, Four]) ensures o == Str("WO1") {
      var i :| 0 <= i < 2 && [Six, Four][i].ov == o;
    }
    assert [Six][0].ov in Ovs([Six]);
    assert [Six, Four][0].ov in Ovs([Six, Four]);
    assert ExpectedUpTo(Sheet, {Str("WO1")}, 0) == 0;
  }

  /** Progress reads 60 % after six pieces and 100 % after ten. */
  lemma ScenarioProgress()
    ensures Avance(Sheet, [Six]) == 60.0
    ensures Avance(Sheet, [Six, Four]) == 100.0
  {
    ExpectedWO1();
    assert [Six][..0] == [];
    assert [Six, Four][..1] == [Six];
    assert Counted([Six]) == 6;
    assert Counted([Six, Four]) == 10;
  }

  /** Progress is not monotone: completing WO1 reads 100 %, and one piece
      counted for a second work order WO2 enlarges the expected total, so
      progress falls to 55 %. */
  lemma ProgressCanFall()
    ensures
      var cat := Sheet + [Row(Str("WO2"), "B1", Str("Producto B"), 10)];
      var b := Entry("B1", Str("Producto B"), 1, Str("WO2"));
      && Avance(cat, [Six, Four]) == 100.0
      && Avance(cat, [Six, Four, b]) == 55.0
  {
    var cat := Sheet + [Row(Str("WO2"), "B1", Str("Producto B"), 10)];
    var b := Entry("B1", Str("Producto B"), 1, Str("WO2"));
    ExpectedWO1();
    forall o | o in Ovs([Six, Four, b]) ensures o == Str("WO1") || o == Str("WO2") {
      var i :| 0 <= i < 3 && [Six, Four, b][i].ov == o;
    }
    assert [Six, Four, b][0].ov in Ovs([Six, Four, b]);
    assert [Six, Four, b][2].ov in Ovs([Six, Four, b]);
    assert Ovs([Six, Four, b]) == {Str("WO1"), Str("WO2")};
    assert ExpectedUpTo(cat, {Str("WO1")}, 0) == 0;
    assert ExpectedUpTo(cat, {Str("WO1"), Str("WO2")}, 0) == 0;
    assert cat[0].ov == Str("WO1") && cat[0].cant == 10;
    assert cat[1].ov == Str("WO2") && cat[1].cant == 10;
    assert Str("WO2") != Str("WO1");
    assert ExpectedUpTo(cat, {Str("WO1")}, 1) == 10;
    assert ExpectedUpTo(cat, {Str("WO1"), Str("WO2")}, 1) == 10;
    assert Expected(cat, {Str("WO1")}) == 10;
    assert Expected(cat, {Str("WO1"), Str("WO2")}) == 20;
    assert [Six][..0] == [];
    assert Counted([Six]) == 6;
    assert [Six, Four][..1] == [Six];
    assert [Six, Four, b][..2] == [Six, Four];
    assert Counted([Six, Four]) == 10;
    assert Counted([Six, Four, b]) == 11;
  }
}
