/**
  The snapshot `saveState` writes and `fromState` reads back: the price, the
  efficiency and one record per row. The JSON text and `localStorage` are not
  modelled; the snapshot holds the values JSON keeps, so a NaN number is
  written as `null` (`None` here).
 */
module Storage {
  import opened Wrappers
  import opened Numbers
  import opened Segments
  import opened Aggregation

  datatype Snapshot = Snapshot(price: Option<real>, eff: Option<real>, kms: seq<RowData>)

  /** A number as JSON stores it: NaN becomes `null`. */
  function Stored(n: Number): (o: Option<real>)
    ensures o.None? <==> n.NaN?
    ensures n.Num? ==> o == Some(n.val)
  {
    if n.Num? then Some(n.val) else None
  }

  /** `parseFloat(input.value) || ""`: blank, unparsable AND zero readings are all saved as `""`. */
  function SaveDistance(f: Field<real>): (o: Option<real>)
    ensures o.Some? <==> f.Value? && f.v != 0.0
    ensures o.Some? ==> o.value == f.v
  {
    if f.Value? && f.v != 0.0 then Some(f.v) else None
  }

  /** The record `saveState` writes for one row. */
  function SaveRow(r: Row): (d: RowData)
    ensures d.checked == r.checked
    ensures d.people == PeopleCount(r.people)
    ensures d.km == SaveDistance(r.km) && d.start == SaveDistance(r.start) && d.end == SaveDistance(r.end)
  {
    RowData(r.checked, SaveDistance(r.km), SaveDistance(r.start), SaveDistance(r.end),
            PeopleCount(r.people))
  }

  /** `saveState`: `Number(price.value || 0)`, `Number(eff.value || 0)` and every row's record, in order. */
  function Save(price: Field<real>, eff: Field<real>, rows: seq<Row>): (s: Snapshot)
    ensures s.price == Stored(ToNumber(price)) && s.eff == Stored(ToNumber(eff))
    ensures price.Blank? ==> s.price == Some(0.0)
    ensures eff.Blank? ==> s.eff == Some(0.0)
    ensures price.Invalid? ==> s.price == None
    ensures eff.Invalid? ==> s.eff == None
    ensures |s.kms| == |rows|
    ensures forall i :: 0 <= i < |rows| ==> s.kms[i] == SaveRow(rows[i])
  {
    Snapshot(Stored(ToNumber(price)), Stored(ToNumber(eff)),
             seq(|rows|, i requires 0 <= i < |rows| => SaveRow(rows[i])))
  }

  /**
    The rows `fromState` creates: one `segRow` per saved record, or one new
    row when the snapshot holds none.
   */
  function RestoreRows(kms: seq<RowData>): (rows: seq<Row>)
    ensures |rows| == if kms == [] then 1 else |kms|
    ensures kms == [] ==> rows == [EmptyRow]
    ensures forall i :: 0 <= i < |kms| ==> rows[i] == SegRow(kms[i])
  {
    var data := if |kms| > 0 then kms else [NewRowData];
    EmptyRowIsNew();
    seq(|data|, i requires 0 <= i < |data| => SegRow(data[i]))
  }

  /**
    The rows after startup, before `recalc` reformats them: the restored rows
    when a snapshot was loaded, else the one row startup adds.
   */
  function StartRows(saved: Option<Snapshot>): (rows: seq<Row>)
    ensures |rows| >= 1
    ensures saved.None? || saved.value.kms == [] ==> rows == [EmptyRow]
    ensures saved.Some? ==> rows == RestoreRows(saved.value.kms)
  {
    if saved.Some? then RestoreRows(saved.value.kms) else [EmptyRow]
  }

  /** A settled row comes back from its saved record settled and with the same reads. */
  lemma SaveRestoreRow(r: Row)
    requires Settled(r)
    ensures Normalize(SegRow(SaveRow(r))) == Normalize(r)
    ensures Settled(SegRow(SaveRow(r)))
  {
    var d := SaveRow(r);
    var r0 := Row(d.checked, FieldOf(d.km), FieldOf(d.start), FieldOf(d.end),
                  if d.people.Some? then Value(d.people.value) else Invalid, false);
    var r' := SyncKm(r0);
    assert r' == SegRow(d);
    assert r'.readOnly ==> r.readOnly;
    if r'.readOnly {
      assert r0.start == r.start && r0.end == r.end;
      TenthsDifference(r.end.v, r.start.v);
    }
  }

  lemma SettledRowsRestoreLegs(rows: seq<Row>)
    requires AllSettled(rows) && rows != []
    ensures var rows' := RestoreRows(Save(Blank, Blank, rows).kms);
      AllSettled(rows') && Legs(rows') == Legs(rows)
  {
    var rows' := RestoreRows(Save(Blank, Blank, rows).kms);
    forall i | 0 <= i < |rows|
      ensures Settled(rows'[i]) && Legs(rows')[i] == Legs(rows)[i]
    {
      SaveRestoreRow(rows[i]);
    }
  }

  /** The totals depend on the inputs only through the numbers read from them and the rows' reads. */
  lemma SameReadsSameTotals(price: Field<real>, eff: Field<real>, rows: seq<Row>,
                            price': Field<real>, eff': Field<real>, rows': seq<Row>)
    requires ToNumber(price) == ToNumber(price') && ToNumber(eff) == ToNumber(eff')
    requires Legs(rows) == Legs(rows')
    ensures Aggregate(price', eff', rows') == Aggregate(price, eff, rows).(warning := Aggregate(price', eff', rows').warning)
  {
  }

  lemma NewLegAddsNothing(p: Number, e: Number)
    requires p.Num?
    ensures KmTotal([Leg(true, 0.0, Some(1))]) == 0.0
    ensures CostTotal([Leg(true, 0.0, Some(1))], p, e) == Num(0.0)
    ensures MaxPeople([Leg(true, 0.0, Some(1))]) == Some(1)
  {
    var legs := [Leg(true, 0.0, Some(1))];
    assert Init(legs) == [];
    assert KmTotal(legs) == 0.0;
    assert MaxPeople(legs) == Some(1);
    if Positive(e) {
      assert 0.0 / e.val == 0.0;
      assert RowCost(0.0, p, e.val) == Num(0.0);
    }
  }

  /** With a parsed price, no rows and one new row give the same totals. */
  lemma NewRowAddsNothing(price: Field<real>, eff: Field<real>)
    requires !price.Invalid?
    ensures Aggregate(price, eff, [EmptyRow]) == Aggregate(price, eff, [])
  {
    EmptyRowIsNew();
    assert Legs([EmptyRow]) == [Leg(true, 0.0, Some(1))];
    NewLegAddsNothing(ToNumber(price), ToNumber(eff));
  }

  /**
    Saving and restoring settled rows reproduces every total, provided the
    price and efficiency inputs are not unparsable. Only the warning can
    change: a blank efficiency is saved as 0 and comes back as the text "0",
    which is not blank, so the warning is set after the reload.
   */
  lemma SaveRestoreTotals(price: Field<real>, eff: Field<real>, rows: seq<Row>)
    requires AllSettled(rows) && !price.Invalid? && !eff.Invalid?
    ensures var s := Save(price, eff, rows);
      var t, t' := Aggregate(price, eff, rows), Aggregate(FieldOf(s.price), FieldOf(s.eff), RestoreRows(s.kms));
      t' == t.(warning := t.warning || eff.Blank?)
  {
    var s := Save(price, eff, rows);
    var price', eff', rows' := FieldOf(s.price), FieldOf(s.eff), RestoreRows(s.kms);
    assert ToNumber(price') == ToNumber(price);
    assert ToNumber(eff') == ToNumber(eff);
    assert Aggregate(price', eff', rows').warning == (Aggregate(price, eff, rows).warning || eff.Blank?);
    if rows == [] {
      NewRowAddsNothing(price', eff');
      assert rows' == [EmptyRow];
      SameReadsSameTotals(price, eff, [], price', eff', []);
    } else {
      assert s.kms == Save(Blank, Blank, rows).kms;
      SettledRowsRestoreLegs(rows);
      SameReadsSameTotals(price, eff, rows, price', eff', rows');
    }
  }

  /** The reload that shows the warning: a blank efficiency never warns, its reloaded "0" always does. */
  lemma BlankEfficiencyWarnsAfterReload(price: Field<real>, rows: seq<Row>)
    ensures !Aggregate(price, Blank, rows).warning
    ensures FieldOf(Save(price, Blank, rows).eff) == Value(0.0)
    ensures Aggregate(FieldOf(Save(price, Blank, rows).price), Value(0.0), RestoreRows(Save(price, Blank, rows).kms)).warning
  {
  }

  /**
    A start reading of 0 is saved as `""`: the reloaded row keeps its distance
    but the distance input is no longer read-only.
   */
  lemma ZeroStartReadingDropped(r: Row)
    requires Settled(r) && r.start == Value(0.0) && r.end.Value?
    ensures r.readOnly && !SegRow(SaveRow(r)).readOnly
    ensures Normalize(SegRow(SaveRow(r))) == Normalize(r)
  {
    SaveRestoreRow(r);
  }
}
