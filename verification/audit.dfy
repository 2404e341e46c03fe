/** The counting form as a state machine: the product panel a scanned code
    opens, the over-count guard that decides whether a count may be
    confirmed, the session's transitions, and the invariant the guard keeps:
    no code is ever counted past its expected quantity. */
module Audit {
  import opened Wrappers
  import opened Text
  import opened Catalog
  import opened Ledger

  /** The expected quantity for `code`: that of the first catalog line with
      this code, or 0 when no line has it. */
  function Limit(cat: seq<Row>, code: string): (n: nat)
    ensures FirstMatch(cat, code).Some? ==> n == cat[FirstMatch(cat, code).value].cant
  {
    match FirstMatch(cat, code)
    case None => 0
    case Some(i) => cat[i].cant
  }

  /** The product panel: which catalog line is shown, the expected quantity
      ("Esperado") and the pieces counted so far ("Llevas"). */
  datatype Panel = Panel(line: nat, limite: nat, yaAuditado: nat)

  /** The panel a scanned code opens, if it selects a catalog line. */
  function OpenPanel(cat: seq<Row>, h: History, input: string): (r: Option<Panel>)
    ensures r.Some? <==> Lookup(cat, input).Some?
    ensures r.Some? ==> r.value.line < |cat| && cat[r.value.line].codigo == Strip(input)
    ensures r.Some? ==> r.value.line == Lookup(cat, input).value
    ensures r.Some? ==> r.value.limite == Limit(cat, Strip(input))
    ensures r.Some? ==> r.value.yaAuditado == Audited(h, Strip(input))
  {
    match Lookup(cat, input)
    case None => None
    case Some(i) => Some(Panel(i, cat[i].cant, Audited(h, Strip(input))))
  }

  /** What the form offers for a scanned code and a proposed count: nothing
      when the code selects no line, the over-count error, or the confirm
      button carrying the entry it would record. */
  datatype Offer = NoProduct | Exceeded(panel: Panel) | Confirmable(panel: Panel, entry: Entry)

  /** The over-count guard. */
  function Decide(cat: seq<Row>, h: History, input: string, cant: nat): (r: Offer)
    requires cant >= 1
    ensures r.NoProduct? <==> Lookup(cat, input).None?
    ensures r.Exceeded? <==> Lookup(cat, input).Some? && Audited(h, Strip(input)) + cant > Limit(cat, Strip(input))
    ensures r.Confirmable? <==> Lookup(cat, input).Some? && Audited(h, Strip(input)) + cant <= Limit(cat, Strip(input))
    ensures !r.NoProduct? ==> r.panel == OpenPanel(cat, h, input).value
    ensures r.Confirmable? ==>
              && r.entry.codigo == Strip(input) && r.entry.piezas == cant
              && r.entry.ov == cat[Lookup(cat, input).value].ov
              && r.entry.descripcion == cat[Lookup(cat, input).value].desc
  {
    match OpenPanel(cat, h, input)
    case None => NoProduct
    case Some(p) =>
      if p.yaAuditado + cant > p.limite then Exceeded(p)
      else
        var row := cat[p.line];
        Confirmable(p, Entry(Strip(input), row.desc, cant, row.ov))
  }

  /** The session: the ledger and the text in the scanner field. */
  datatype Session = Session(historial: History, scanner: string)

  /** The session a fresh page starts with. */
  const Start := Session([], "")

  /** The operator's actions: typing or scanning a code, pressing confirm
      with a proposed count, and resetting everything. */
  datatype Action = Scan(text: string) | Confirm(cant: nat) | ResetAll

  /** The quantity widget never offers less than one piece. */
  predicate Allowed(a: Action) {
    a.Confirm? ==> a.cant >= 1
  }

  /** One transition. Confirming records the offered entry and clears the
      scanner field when the guard lets the count through, and changes
      nothing otherwise; reset empties the ledger. */
  function Step(cat: seq<Row>, s: Session, a: Action): (r: Session)
    requires Allowed(a)
    ensures a.Scan? ==> r.historial == s.historial && r.scanner == a.text
    ensures a.ResetAll? ==> r.historial == [] && r.scanner == s.scanner
    ensures a.Confirm? && Decide(cat, s.historial, s.scanner, a.cant).Confirmable? ==>
              && |r.historial| == |s.historial| + 1
              && r.historial[..|s.historial|] == s.historial
              && r.historial[|s.historial|] == Decide(cat, s.historial, s.scanner, a.cant).entry
              && r.scanner == ""
    ensures a.Confirm? && !Decide(cat, s.historial, s.scanner, a.cant).Confirmable? ==> r == s
  {
    match a
    case Scan(text) => s.(scanner := text)
    case ResetAll => s.(historial := [])
    case Confirm(cant) =>
      match Decide(cat, s.historial, s.scanner, cant)
      case Confirmable(_, e) =>
        Session(Register(s.historial, e.codigo, e.descripcion, e.piezas, e.ov), "")
      case _ => s
  }

  /** Runs a sequence of actions from `s`. */
  function Run(cat: seq<Row>, s: Session, acts: seq<Action>): Session
    requires forall i :: 0 <= i < |acts| ==> Allowed(acts[i])
    decreases |acts|
  {
    if |acts| == 0 then s else Run(cat, Step(cat, s, acts[0]), acts[1..])
  }

  /** An entry the guard could have let through: at least one piece, for a
      code the catalog has, carrying the description and work order of the
      first line with that code. */
  predicate Recorded(cat: seq<Row>, e: Entry) {
    && e.piezas >= 1
    && match FirstMatch(cat, e.codigo)
       case None => false
       case Some(i) => e.ov == cat[i].ov && e.descripcion == cat[i].desc
  }

  /** The ledger invariant: every entry is one the guard could have let
      through, and no code is counted past its expected quantity. */
  ghost predicate Sound(cat: seq<Row>, h: History) {
    && (forall i :: 0 <= i < |h| ==> Recorded(cat, h[i]))
    && (forall code :: Audited(h, code) <= Limit(cat, code))
  }

  /** The empty ledger is sound. */
  lemma SoundEmpty(cat: seq<Row>)
    ensures Sound(cat, [])
  {
  }

  /** Every entry the guard offers is one it could have let through. */
  lemma OfferedRecorded(cat: seq<Row>, h: History, input: string, cant: nat)
    requires cant >= 1
    requires Decide(cat, h, input, cant).Confirmable?
    ensures Recorded(cat, Decide(cat, h, input, cant).entry)
  {
  }

  /** Every transition keeps the ledger sound. */
  lemma StepSound(cat: seq<Row>, s: Session, a: Action)
    requires Allowed(a)
    requires Sound(cat, s.historial)
    ensures Sound(cat, Step(cat, s, a).historial)
  {
    if a.Confirm? && Decide(cat, s.historial, s.scanner, a.cant).Confirmable? {
      ConfirmSound(cat, s.historial, s.scanner, a.cant);
    }
  }

  /** Registering the entry the guard offers keeps the ledger sound. */
  lemma ConfirmSound(cat: seq<Row>, h: History, input: string, cant: nat)
    requires cant >= 1
    requires Sound(cat, h)
    requires Decide(cat, h, input, cant).Confirmable?
    ensures Sound(cat, Register(h, Strip(input), Decide(cat, h, input, cant).entry.descripcion, cant,
                                Decide(cat, h, input, cant).entry.ov))
  {
    var e := Decide(cat, h, input, cant).entry;
    ConfirmWithinLimits(cat, h, input, cant);
    OfferedRecorded(cat, h, input, cant);
    RegisterRecorded(cat, h, e);
  }

  /** Registering the entry the guard offers keeps every code within its
      expected quantity. */
  lemma ConfirmWithinLimits(cat: seq<Row>, h: History, input: string, cant: nat)
    requires cant >= 1
    requires forall code :: Audited(h, code) <= Limit(cat, code)
    requires Decide(cat, h, input, cant).Confirmable?
    ensures forall code :: Audited(Register(h, Strip(input), Decide(cat, h, input, cant).entry.descripcion, cant,
                                            Decide(cat, h, input, cant).entry.ov), code) <= Limit(cat, code)
  {
    var e := Decide(cat, h, input, cant).entry;
    forall code
      ensures Audited(Register(h, e.codigo, e.descripcion, e.piezas, e.ov), code) <= Limit(cat, code)
    {
      AuditedRegister(h, code, e.codigo, e.descripcion, e.piezas, e.ov);
    }
  }

  /** Appending an entry the guard could have let through to a ledger of
      such entries gives a ledger of such entries. */
  lemma RegisterRecorded(cat: seq<Row>, h: History, e: Entry)
    requires forall i :: 0 <= i < |h| ==> Recorded(cat, h[i])
    requires Recorded(cat, e)
    ensures forall i :: 0 <= i < |h| + 1 ==>
              Recorded(cat, Register(h, e.codigo, e.descripcion, e.piezas, e.ov)[i])
  {
    var h' := Register(h, e.codigo, e.descripcion, e.piezas, e.ov);
    assert h' == h + [e];
  }

  /** Any run of actions keeps the ledger sound. */
  lemma {:induction false} RunSound(cat: seq<Row>, s: Session, acts: seq<Action>)
    requires forall i :: 0 <= i < |acts| ==> Allowed(acts[i])
    requires Sound(cat, s.historial)
    ensures Sound(cat, Run(cat, s, acts).historial)
    decreases |acts|
  {
    if |acts| > 0 {
      StepSound(cat, s, acts[0]);
      RunSound(cat, Step(cat, s, acts[0]), acts[1..]);
    }
  }

  /** Whatever the operator does from a fresh page, no code is ever counted
      past the expected quantity of its first catalog line, and every entry
      holds at least one piece. */
  lemma NeverOverCounted(cat: seq<Row>, acts: seq<Action>, code: string)
    requires forall i :: 0 <= i < |acts| ==> Allowed(acts[i])
    ensures Audited(Run(cat, Start, acts).historial, code) <= Limit(cat, code)
    ensures forall i :: 0 <= i < |Run(cat, Start, acts).historial| ==> Run(cat, Start, acts).historial[i].piezas >= 1
  {
    SoundEmpty(cat);
    RunSound(cat, Start, acts);
  }

  /** A code that selects no line opens no panel and cannot be confirmed: the
      session stays as it was. */
  lemma UnknownCodeChangesNothing(cat: seq<Row>, s: Session, cant: nat)
    requires cant >= 1
    requires Lookup(cat, s.scanner).None?
    ensures OpenPanel(cat, s.historial, s.scanner).None?
    ensures Step(cat, s, Confirm(cant)) == s
  {
  }
}
