/**
  The calculator page as one object: the price and efficiency inputs, the
  segment rows in display order, what the result elements show, and what
  `localStorage` holds under "gas-calc". The public methods are the page's
  handlers, and each ends, as they do, with `recalc` and `saveState`;
  `Recalc`, its helpers `Tally` and `Visit`, and `FromState` are what they call.
 */
module Trips {
  import opened Wrappers
  import opened Numbers
  import opened Segments
  import opened Aggregation
  import opened Storage

  /** The prefixes a loop over `s` walks through. */
  lemma PrefixStep<T>(s: seq<T>, k: nat)
    requires k <= |s|
    ensures k < |s| ==> s[..k + 1] == s[..k] + [s[k]]
    ensures k == |s| ==> s[..k] == s
  {
  }

  /** The three running totals after one more row. */
  lemma FoldStep(legs: seq<Leg>, i: nat, l: Leg, p: Number, e: Number)
    requires i < |legs| && l == legs[i]
    ensures KmTotal(legs[..i + 1]) == KmTotal(legs[..i]) + (if l.counts then l.km else 0.0)
    ensures MaxPeople(legs[..i + 1]) == (if l.counts then MaxCount(MaxPeople(legs[..i]), l.people)
                                         else MaxPeople(legs[..i]))
    ensures CostTotal(legs[..i + 1], p, e) == (if l.counts && Positive(e)
                                               then Add(CostTotal(legs[..i], p, e), RowCost(l.km, p, e.val))
                                               else CostTotal(legs[..i], p, e))
  {
    assert Init(legs[..i + 1]) == legs[..i] && Last(legs[..i + 1]) == legs[i];
  }

  /** One step of `recalc`'s in-place rewrite: the rows before `i` are rewritten, the others as they were. */
  lemma RewriteStep(before: seq<Row>, rows: seq<Row>, i: nat)
    requires i < |rows| == |before|
    requires forall j :: 0 <= j < i ==> rows[j] == Reformat(before[j])
    requires forall j :: i <= j < |rows| ==> rows[j] == before[j]
    ensures var rows' := rows[i := Reformat(rows[i])];
      (forall j :: 0 <= j < i + 1 ==> rows'[j] == Reformat(before[j]))
      && (forall j :: i + 1 <= j < |rows'| ==> rows'[j] == before[j])
  {
  }

  /** The figures `recalc` shows, computed from the three running totals at the end of its loop. */
  lemma FoldsGiveFigures(p: Number, e: Number, effBlank: bool, legs: seq<Leg>,
                         km: real, maxPeople: Option<int>, cost: Number)
    requires km == KmTotal(legs) && maxPeople == MaxPeople(legs) && cost == CostTotal(legs, p, e)
    ensures NonPositive(e) ==>
              Figures(p, e, effBlank, legs) == Summary(km, Num(0.0), Num(0.0), Num(0.0), Num(0.0), !effBlank)
    ensures !NonPositive(e) ==>
              Figures(p, e, effBlank, legs) ==
              Summary(km, Div(Num(km), e), cost, Div(p, e),
                      if maxPeople.Some? && maxPeople.value > 0 then Div(cost, Num(maxPeople.value as real))
                      else Num(0.0),
                      false)
  {
  }

  class Trip {
    var price: Field<real>
    var eff: Field<real>
    var rows: seq<Row>
    var shown: Summary
    var stored: Option<Snapshot>

    /**
      Startup: `fromState(load("gas-calc", null))`, then one new row if there
      is none, then `recalc`. `price0` and `eff0` are what the page's inputs
      hold before any snapshot is applied.
     */
    constructor Start(saved: Option<Snapshot>, price0: Field<real>, eff0: Field<real>)
      ensures price == (if saved.Some? then FieldOf(saved.value.price) else price0)
      ensures eff == (if saved.Some? then FieldOf(saved.value.eff) else eff0)
      ensures rows == ReformatCounted(StartRows(saved))
      ensures |rows| >= 1
      ensures shown == Aggregate(price, eff, rows)
      ensures stored == Some(Save(price, eff, rows))
    {
      price, eff, rows := price0, eff0, [];
      shown := Aggregate(price0, eff0, []);
      stored := saved;
      new;
      if saved.Some? {
        FromState(saved.value);
      }
      if rows == [] {
        EmptyRowIsNew();
        AddSegment(NewRowData);
      }
      ReformatCountedKeeps(StartRows(saved));
      Recalc();
    }

    /**
      `fromState(s)`: take the price and efficiency from the snapshot, remove
      every row, and add one row per saved record, or one new row when there
      is none.
     */
    method FromState(s: Snapshot)
      modifies this
      ensures price == FieldOf(s.price) && eff == FieldOf(s.eff)
      ensures rows == ReformatCounted(RestoreRows(s.kms))
      ensures shown == Aggregate(price, eff, rows)
      ensures stored == Some(Save(price, eff, rows))
    {
      price := FieldOf(s.price);
      eff := FieldOf(s.eff);
      rows := [];
      var data := if |s.kms| > 0 then s.kms else [NewRowData];
      ghost var restored := RestoreRows(s.kms);
      EmptyRowIsNew();
      assert |restored| == |data| && forall k :: 0 <= k < |data| ==> restored[k] == SegRow(data[k]);
      for k := 0 to |data|
        invariant price == FieldOf(s.price) && eff == FieldOf(s.eff)
        invariant rows == ReformatCounted(restored[..k])
        invariant k > 0 ==> shown == Aggregate(price, eff, rows) && stored == Some(Save(price, eff, rows))
      {
        PrefixStep(restored, k);
        assert restored[k] == SegRow(data[k]);
        ReformatCountedAppend(restored[..k], SegRow(data[k]));
        AddSegment(data[k]);
      }
      PrefixStep(restored, |data|);
    }

    /**
      `recalc`: one pass over the rows (`Tally`), then the summary is shown
      and the state saved.
     */
    method Recalc()
      modifies this
      ensures price == old(price) && eff == old(eff)
      ensures rows == ReformatCounted(old(rows))
      ensures shown == Aggregate(price, eff, old(rows)) && shown == Aggregate(price, eff, rows)
      ensures stored == Some(Save(price, eff, rows))
    {
      var p := ToNumber(price);
      var e := ToNumber(eff);
      var kmTotal, maxPeople, costTotal := Tally();
      FoldsGiveFigures(p, e, eff.Blank?, Legs(old(rows)), kmTotal, maxPeople, costTotal);
      if NonPositive(e) {
        shown := Summary(kmTotal, Num(0.0), Num(0.0), Num(0.0), Num(0.0), eff != Blank);
      } else {
        var perPerson := if maxPeople.Some? && maxPeople.value > 0
                         then Div(costTotal, Num(maxPeople.value as real)) else Num(0.0);
        shown := Summary(kmTotal, Div(Num(kmTotal), e), costTotal, Div(p, e), perPerson, false);
      }
      stored := Some(Save(price, eff, rows));
      ReformatCountedKeeps(old(rows));
    }

    /**
      `recalc`'s `forEach` over the rows in order, with `Visit` as the
      callback, starting from `kmTotal = 0`, `maxPeople = 0`, `costTotal = 0`.
     */
    method Tally() returns (kmTotal: real, maxPeople: Option<int>, costTotal: Number)
      modifies this
      ensures price == old(price) && eff == old(eff) && shown == old(shown) && stored == old(stored)
      ensures rows == ReformatCounted(old(rows))
      ensures kmTotal == KmTotal(Legs(old(rows)))
      ensures maxPeople == MaxPeople(Legs(old(rows)))
      ensures costTotal == CostTotal(Legs(old(rows)), ToNumber(price), ToNumber(eff))
    {
      kmTotal := 0.0;
      maxPeople := Some(0);
      costTotal := Num(0.0);
      var p := ToNumber(price);
      var e := ToNumber(eff);
      ghost var legs := Legs(rows);
      var i := 0;
      while i < |rows|
        invariant 0 <= i <= |rows| == |old(rows)|
        invariant price == old(price) && eff == old(eff) && shown == old(shown) && stored == old(stored)
        invariant forall j :: 0 <= j < i ==> rows[j] == Reformat(old(rows)[j])
        invariant forall j :: i <= j < |rows| ==> rows[j] == old(rows)[j]
        invariant kmTotal == KmTotal(legs[..i])
        invariant maxPeople == MaxPeople(legs[..i])
        invariant costTotal == CostTotal(legs[..i], p, e)
      {
        FoldStep(legs, i, Normalize(rows[i]), p, e);
        RewriteStep(old(rows), rows, i);
        kmTotal, maxPeople, costTotal := Visit(i, p, e, kmTotal, maxPeople, costTotal);
        i := i + 1;
      }
      assert legs[..|rows|] == legs;
    }

    /**
      The `forEach` callback for row `i`: an unchecked row is skipped; a
      checked one has its distance, start and end inputs rewritten with one
      decimal, adds its distance to `kmTotal`, raises `maxPeople` to its people
      count and, while `e > 0`, adds `(km / e) * p` to `costTotal`.
     */
    method Visit(i: nat, p: Number, e: Number, kmTotal: real, maxPeople: Option<int>, costTotal: Number)
      returns (kmTotal': real, maxPeople': Option<int>, costTotal': Number)
      requires i < |rows|
      modifies this
      ensures price == old(price) && eff == old(eff) && shown == old(shown) && stored == old(stored)
      ensures rows == old(rows)[i := Reformat(old(rows)[i])]
      ensures var l := Normalize(old(rows)[i]);
        kmTotal' == kmTotal + (if l.counts then l.km else 0.0)
        && maxPeople' == (if l.counts then MaxCount(maxPeople, l.people) else maxPeople)
        && costTotal' == (if l.counts && Positive(e) then Numbers.Add(costTotal, RowCost(l.km, p, e.val))
                          else costTotal)
    {
      kmTotal', maxPeople', costTotal' := kmTotal, maxPeople, costTotal;
      var row := rows[i];
      if !row.checked {
        return;
      }
      var kmInput := FormatOneDecimal(row.km);
      rows := rows[i := row.(km := kmInput, start := FormatOneDecimal(row.start),
                             end := FormatOneDecimal(row.end))];
      var km := OrZero(ParseFloat(kmInput));
      kmTotal' := kmTotal + km;
      maxPeople' := MaxCount(maxPeople, PeopleCount(row.people));
      if Positive(e) {
        var needL := km / e.val;
        costTotal' := Numbers.Add(costTotal, Mul(Num(needL), p));
      }
    }

    /** `addSegment(data)`: append the row `segRow` builds from `data`, then `recalc` and `saveState`. */
    method AddSegment(d: RowData)
      modifies this
      ensures price == old(price) && eff == old(eff)
      ensures rows == ReformatCounted(old(rows) + [SegRow(d)])
      ensures shown == Aggregate(price, eff, rows)
      ensures stored == Some(Save(price, eff, rows))
    {
      rows := rows + [SegRow(d)];
      Recalc();
      stored := Some(Save(price, eff, rows));
    }

    /** The "add segment" button: exactly one new row at the end; settled rows before it stay as they were. */
    method Add()
      modifies this
      ensures price == old(price) && eff == old(eff)
      ensures |rows| == |old(rows)| + 1
      ensures rows[..|old(rows)|] == ReformatCounted(old(rows))
      ensures rows[|old(rows)|] == EmptyRow
      ensures AllSettled(old(rows)) ==> rows == old(rows) + [EmptyRow] && AllSettled(rows)
      ensures shown == Aggregate(price, eff, rows)
      ensures stored == Some(Save(price, eff, rows))
    {
      ghost var before := rows;
      EmptyRowIsNew();
      AddSegment(NewRowData);
      ReformatCountedKeeps(before);
      assert rows == ReformatCounted(before) + [EmptyRow];
      if AllSettled(before) {
        assert AllSettled(before + [EmptyRow]);
        ReformatCountedKeeps(before + [EmptyRow]);
      }
    }

    /** A row's delete button: remove that row only (the list may become empty), then `recalc` and `saveState`. */
    method Delete(i: nat)
      requires i < |rows|
      modifies this
      ensures price == old(price) && eff == old(eff)
      ensures rows == ReformatCounted(old(rows)[..i] + old(rows)[i + 1..])
      ensures |rows| == |old(rows)| - 1
      ensures AllSettled(old(rows)) ==> rows == old(rows)[..i] + old(rows)[i + 1..] && AllSettled(rows)
      ensures shown == Aggregate(price, eff, rows)
      ensures stored == Some(Save(price, eff, rows))
    {
      rows := rows[..i] + rows[i + 1..];
      ghost var after := rows;
      Recalc();
      stored := Some(Save(price, eff, rows));
      if AllSettled(old(rows)) {
        assert AllSettled(after);
        ReformatCountedKeeps(after);
      }
    }

    /** The "clear segments" button: remove every row and add one new one. */
    method ClearSegments()
      modifies this
      ensures price == old(price) && eff == old(eff)
      ensures rows == [EmptyRow]
      ensures shown == Aggregate(price, eff, rows)
      ensures stored == Some(Save(price, eff, rows))
    {
      rows := [];
      EmptyRowIsNew();
      AddSegment(NewRowData);
      ReformatCountedKeeps([EmptyRow]);
    }

    /**
      The reset button: forget the snapshot, blank price and efficiency, leave
      one new row, and `recalc`, which shows all zeros and no warning.
     */
    method Reset()
      modifies this
      ensures price == Blank && eff == Blank
      ensures rows == [EmptyRow]
      ensures shown == Summary(0.0, Num(0.0), Num(0.0), Num(0.0), Num(0.0), false)
      ensures stored == Some(Save(Blank, Blank, [EmptyRow]))
    {
      stored := None;
      price, eff := Blank, Blank;
      rows := [];
      EmptyRowIsNew();
      AddSegment(NewRowData);
      ReformatCountedKeeps([EmptyRow]);
      Recalc();
      EfficiencyGate(Blank, Blank, [EmptyRow]);
      assert Legs([EmptyRow]) == [Leg(true, 0.0, Some(1))];
      NewLegAddsNothing(Num(0.0), Num(0.0));
    }

    /** The row `input` handler after the user changed row `i` into `typed`: normalise it, `recalc`, `saveState`. */
    method EditRow(i: nat, typed: Row)
      requires i < |rows|
      modifies this
      ensures price == old(price) && eff == old(eff)
      ensures rows == ReformatCounted(old(rows)[i := OnEdit(typed)])
      ensures rows[i] == OnEdit(typed) && Settled(rows[i])
      ensures AllSettled(old(rows)) ==> rows == old(rows)[i := OnEdit(typed)] && AllSettled(rows)
      ensures shown == Aggregate(price, eff, rows)
      ensures stored == Some(Save(price, eff, rows))
    {
      rows := rows[i := OnEdit(typed)];
      ghost var after := rows;
      Recalc();
      stored := Some(Save(price, eff, rows));
      if AllSettled(old(rows)) {
        assert AllSettled(after);
        ReformatCountedKeeps(after);
      }
    }

    /** The price input's `input` handler. */
    method EditPrice(f: Field<real>)
      modifies this
      ensures price == f && eff == old(eff)
      ensures rows == ReformatCounted(old(rows))
      ensures shown == Aggregate(price, eff, rows)
      ensures stored == Some(Save(price, eff, rows))
    {
      price := f;
      Recalc();
    }

    /** The efficiency input's `input` handler. */
    method EditEfficiency(f: Field<real>)
      modifies this
      ensures eff == f && price == old(price)
      ensures rows == ReformatCounted(old(rows))
      ensures shown == Aggregate(price, eff, rows)
      ensures stored == Some(Save(price, eff, rows))
    {
      eff := f;
      Recalc();
    }
  }
}
