/**
  The totals `recalc` computes from the price, the efficiency and the rows:
  the summed distance over counted rows, the largest people count, the cost
  accrued row by row, and the derived litres, per-km and per-person figures,
  with all of them zeroed when the efficiency is not positive.

  The folds run over the rows from first to last, as `recalc`'s `forEach`
  does, so each is defined by peeling off the LAST row.
 */
module Aggregation {
  import opened Wrappers
  import opened Numbers
  import opened Segments

  /** What `recalc` displays: `sumKm`, `liters`, `total`, `perKm`, `perPerson`, and whether `warn` is set. */
  datatype Summary = Summary(km: real, liters: Number, cost: Number, perKm: Number,
                             perPerson: Number, warning: bool)

  /** The rows as `recalc` reads them. */
  function Legs(rows: seq<Row>): (ls: seq<Leg>)
    ensures |ls| == |rows|
    ensures forall i :: 0 <= i < |rows| ==> ls[i] == Normalize(rows[i])
  {
    seq(|rows|, i requires 0 <= i < |rows| => Normalize(rows[i]))
  }

  /** The rows after `recalc`'s in-place one-decimal rewrite of the counted ones. */
  function ReformatCounted(rows: seq<Row>): (rs: seq<Row>)
    ensures |rs| == |rows|
    ensures forall i :: 0 <= i < |rows| ==> rs[i] == Reformat(rows[i])
  {
    seq(|rows|, i requires 0 <= i < |rows| => Reformat(rows[i]))
  }

  predicate AllSettled(rows: seq<Row>)
  {
    forall i :: 0 <= i < |rows| ==> Settled(rows[i])
  }

  /** The rewrite leaves settled rows as they are, and the reads of any rows unchanged. */
  lemma ReformatCountedKeeps(rows: seq<Row>)
    ensures Legs(ReformatCounted(rows)) == Legs(rows)
    ensures ReformatCounted(ReformatCounted(rows)) == ReformatCounted(rows)
    ensures AllSettled(rows) ==> ReformatCounted(rows) == rows
  {
    var rs := ReformatCounted(rows);
    forall i | 0 <= i < |rows| ensures Reformat(rs[i]) == rs[i] {
      var r := rows[i];
      if r.checked {
        assert rs[i].km == FormatOneDecimal(r.km);
      }
    }
  }

  /** Rewriting the rows before appending one and rewriting again is the same as rewriting once. */
  lemma ReformatCountedAppend(a: seq<Row>, r: Row)
    ensures ReformatCounted(ReformatCounted(a) + [r]) == ReformatCounted(a + [r])
  {
    ReformatCountedKeeps(a);
    var lhs, rhs := ReformatCounted(ReformatCounted(a) + [r]), ReformatCounted(a + [r]);
    assert |lhs| == |rhs|;
    forall i | 0 <= i < |lhs| ensures lhs[i] == rhs[i] {
      if i < |a| {
        assert ReformatCounted(ReformatCounted(a))[i] == ReformatCounted(a)[i];
      }
    }
  }

  function Last<T>(s: seq<T>): T
    requires s != []
  {
    s[|s| - 1]
  }

  function Init<T>(s: seq<T>): seq<T>
    requires s != []
  {
    s[..|s| - 1]
  }

  /** `kmTotal`: the distances of the counted rows, added up. */
  function KmTotal(legs: seq<Leg>): (km: real)
    ensures (forall i :: 0 <= i < |legs| ==> legs[i].km >= 0.0) ==> km >= 0.0
  {
    if legs == [] then 0.0
    else KmTotal(Init(legs)) + (if Last(legs).counts then Last(legs).km else 0.0)
  }

  /** `Math.max(a, b)` on counts, `None` being NaN. */
  function MaxCount(a: Option<int>, b: Option<int>): (m: Option<int>)
    ensures m.None? <==> a.None? || b.None?
    ensures m.Some? ==> m.value >= a.value && m.value >= b.value
    ensures m.Some? ==> m.value == a.value || m.value == b.value
  {
    if a.None? || b.None? then None
    else if a.value < b.value then b else a
  }

  /** `maxPeople`: starts at 0 and is raised by each counted row's people count. */
  function MaxPeople(legs: seq<Leg>): (m: Option<int>)
    ensures m.Some? ==> m.value >= 0
    ensures m.None? <==> exists i :: 0 <= i < |legs| && legs[i].counts && legs[i].people.None?
  {
    if legs == [] then Some(0)
    else if Last(legs).counts then MaxCount(MaxPeople(Init(legs)), Last(legs).people)
    else MaxPeople(Init(legs))
  }

  /** The cost one counted row accrues: `(km / e) * p`. */
  function RowCost(km: real, p: Number, e: real): (c: Number)
    requires e > 0.0
    ensures c.NaN? <==> p.NaN?
  {
    Mul(Num(km / e), p)
  }

  /** One row's cost is its litres `km / e` at price `p`: cost times efficiency is distance times price. */
  lemma RowCostTimesEfficiency(km: real, p: real, e: real)
    requires e > 0.0
    ensures RowCost(km, Num(p), e).val * e == km * p
  {
    assert km / e * e == km;
  }

  /** `costTotal`: starts at 0; while `e > 0` each counted row adds its own cost. */
  function CostTotal(legs: seq<Leg>, p: Number, e: Number): (c: Number)
    ensures c.NaN? ==> p.NaN?
  {
    if legs == [] then Num(0.0)
    else if Last(legs).counts && Positive(e) then
      Add(CostTotal(Init(legs), p, e), RowCost(Last(legs).km, p, e.val))
    else CostTotal(Init(legs), p, e)
  }

  /**
    The figures `recalc` shows for price `p`, efficiency `e` and the rows'
    reads `legs`; `effBlank` is whether the efficiency input is empty.
   */
  function Figures(p: Number, e: Number, effBlank: bool, legs: seq<Leg>): (s: Summary)
    ensures s.km == KmTotal(legs)
    ensures s.cost == CostTotal(legs, p, e)
    ensures s.liters.NaN? <==> e.NaN?
    ensures s.perKm.NaN? <==> e.NaN? || (p.NaN? && !NonPositive(e))
    ensures s.warning <==> !effBlank && NonPositive(e)
    ensures !Positive(e) ==> s.cost == Num(0.0) && s.perPerson == Num(0.0)
  {
    var km := KmTotal(legs);
    if NonPositive(e) then
      CostWithoutEfficiency(legs, p, e);
      Summary(km, Num(0.0), Num(0.0), Num(0.0), Num(0.0), !effBlank)
    else
      var cost := CostTotal(legs, p, e);
      assert !Positive(e) ==> cost == Num(0.0) by {
        if !Positive(e) { CostWithoutEfficiency(legs, p, e); }
      }
      var maxPeople := MaxPeople(legs);
      Summary(km, Div(Num(km), e), cost, Div(p, e),
              if maxPeople.Some? && maxPeople.value > 0 then Div(cost, Num(maxPeople.value as real))
              else Num(0.0),
              false)
  }

  /** The result of `recalc` for the given price input, efficiency input and rows. */
  function Aggregate(price: Field<real>, eff: Field<real>, rows: seq<Row>): (s: Summary)
    ensures s == Figures(ToNumber(price), ToNumber(eff), eff.Blank?, Legs(rows))
    ensures s.warning <==> eff != Blank && NonPositive(ToNumber(eff))
    ensures s.liters.NaN? <==> eff.Invalid?
    ensures s.perKm.NaN? <==> eff.Invalid? || (price.Invalid? && !NonPositive(ToNumber(eff)))
  {
    Figures(ToNumber(price), ToNumber(eff), eff.Blank?, Legs(rows))
  }

  // ---- The properties of the aggregation ----

  /** A leg that does not count, wherever it stands, changes none of the three folds. */
  lemma {:induction false} UncountedLegIgnored(a: seq<Leg>, l: Leg, b: seq<Leg>, p: Number, e: Number)
    requires !l.counts
    ensures KmTotal(a + [l] + b) == KmTotal(a + b)
    ensures MaxPeople(a + [l] + b) == MaxPeople(a + b)
    ensures CostTotal(a + [l] + b, p, e) == CostTotal(a + b, p, e)
    decreases |b|
  {
    if b == [] {
      assert Init(a + [l] + b) == a && a + b == a;
    } else {
      assert Init(a + [l] + b) == a + [l] + Init(b);
      assert Init(a + b) == a + Init(b);
      assert Last(a + [l] + b) == Last(a + b) == Last(b);
      UncountedLegIgnored(a, l, Init(b), p, e);
    }
  }

  /** An unchecked row, wherever it stands, changes none of the totals. */
  lemma UncheckedRowIgnored(price: Field<real>, eff: Field<real>, a: seq<Row>, r: Row, b: seq<Row>)
    requires !r.checked
    ensures Aggregate(price, eff, a + [r] + b) == Aggregate(price, eff, a + b)
  {
    assert Legs(a + [r] + b) == Legs(a) + [Normalize(r)] + Legs(b);
    assert Legs(a + b) == Legs(a) + Legs(b);
    UncountedLegIgnored(Legs(a), Normalize(r), Legs(b), ToNumber(price), ToNumber(eff));
    SameFoldsSameFigures(ToNumber(price), ToNumber(eff), eff.Blank?, Legs(a + [r] + b), Legs(a + b));
  }

  /** The figures depend on the rows only through the three running totals. */
  lemma SameFoldsSameFigures(p: Number, e: Number, effBlank: bool, legs: seq<Leg>, legs': seq<Leg>)
    requires KmTotal(legs) == KmTotal(legs') && MaxPeople(legs) == MaxPeople(legs')
    requires CostTotal(legs, p, e) == CostTotal(legs', p, e)
    ensures Figures(p, e, effBlank, legs) == Figures(p, e, effBlank, legs')
  {
  }

  // ---- The people divisor ----

  /** Every checked row's people input parses (or is blank), so no count is NaN. */
  predicate CountsParse(rows: seq<Row>)
  {
    forall i :: 0 <= i < |rows| ==> rows[i].checked ==> !rows[i].people.Invalid?
  }

  predicate NoneChecked(rows: seq<Row>)
  {
    forall i :: 0 <= i < |rows| ==> !rows[i].checked
  }

  /**
    The per-person divisor is the LARGEST people count among the checked rows
    (not their sum); it is 0 exactly when no row is checked.
   */
  lemma {:induction false} MaxPeopleIsMaximum(rows: seq<Row>)
    requires CountsParse(rows)
    ensures MaxPeople(Legs(rows)).Some?
    ensures forall i :: 0 <= i < |rows| && rows[i].checked ==>
              PeopleCount(rows[i].people).value <= MaxPeople(Legs(rows)).value
    ensures NoneChecked(rows) <==> MaxPeople(Legs(rows)) == Some(0)
    ensures !NoneChecked(rows) ==>
              exists i :: 0 <= i < |rows| && rows[i].checked &&
                          PeopleCount(rows[i].people) == MaxPeople(Legs(rows))
  {
    if rows != [] {
      var init, k := Init(rows), |rows| - 1;
      var legs := Legs(rows);
      assert legs[..k] == Legs(init);
      MaxPeopleIsMaximum(init);
      var before, count := MaxPeople(Legs(init)), PeopleCount(rows[k].people);
      assert MaxPeople(legs) == (if rows[k].checked then MaxCount(before, count) else before);
      forall i | 0 <= i < |rows| && rows[i].checked
        ensures PeopleCount(rows[i].people).value <= MaxPeople(legs).value
      {
        if i < k {
          assert rows[i] == init[i];
        }
      }
      if !NoneChecked(init) {
        var j :| 0 <= j < |init| && init[j].checked && PeopleCount(init[j].people) == before;
        assert rows[j] == init[j];
      }
    }
  }

  /** A checked row whose people input does not parse makes the divisor NaN for good. */
  lemma {:induction false} InvalidPeopleIsSticky(rows: seq<Row>, i: nat)
    requires i < |rows| && rows[i].checked && rows[i].people.Invalid?
    ensures MaxPeople(Legs(rows)) == None
  {
    var init := Init(rows);
    assert Legs(rows)[..|rows| - 1] == Legs(init);
    if i < |rows| - 1 {
      assert init[i] == rows[i];
      InvalidPeopleIsSticky(init, i);
    }
  }

  // ---- The cost ----

  /** Accruing `(km / e) * p` row by row gives `(kmTotal / e) * p`: litres times price. */
  lemma CostIsLitersTimesPrice(legs: seq<Leg>, p: real, e: real)
    requires e > 0.0
    ensures CostTotal(legs, Num(p), Num(e)) == Num(KmTotal(legs) / e * p)
  {
    CostIsLitersSumTimesPrice(legs, p, e);
    LitersSumIsKmOverE(legs, e);
  }

  /** The litres the counted legs need, added up row by row: the sum of `km / e`. */
  ghost function LitersSum(legs: seq<Leg>, e: real): real
    requires e > 0.0
  {
    if legs == [] then 0.0
    else LitersSum(Init(legs), e) + (if Last(legs).counts then Last(legs).km / e else 0.0)
  }

  lemma {:induction false} LitersSumIsKmOverE(legs: seq<Leg>, e: real)
    requires e > 0.0
    ensures LitersSum(legs, e) == KmTotal(legs) / e
  {
    if legs != [] {
      LitersSumIsKmOverE(Init(legs), e);
    }
  }

  lemma {:induction false} CostIsLitersSumTimesPrice(legs: seq<Leg>, p: real, e: real)
    requires e > 0.0
    ensures CostTotal(legs, Num(p), Num(e)) == Num(LitersSum(legs, e) * p)
  {
    if legs != [] {
      CostIsLitersSumTimesPrice(Init(legs), p, e);
    }
  }


  /** With a price that is NaN, any checked row makes the cost NaN; none leaves it 0. */
  lemma {:induction false} NaNPriceCost(legs: seq<Leg>, e: real)
    requires e > 0.0
    ensures CostTotal(legs, NaN, Num(e)) == (if NoneCounted(legs) then Num(0.0) else NaN)
  {
    if legs != [] {
      NaNPriceCost(Init(legs), e);
      assert NoneCounted(legs) <==> NoneCounted(Init(legs)) && !Last(legs).counts;
    }
  }

  /** No leg counts. */
  predicate NoneCounted(legs: seq<Leg>)
  {
    forall i :: 0 <= i < |legs| ==> !legs[i].counts
  }

  /** While the efficiency is not positive (or NaN) the cost stays 0. */
  lemma {:induction false} CostWithoutEfficiency(legs: seq<Leg>, p: Number, e: Number)
    requires !Positive(e)
    ensures CostTotal(legs, p, e) == Num(0.0)
  {
    if legs != [] {
      CostWithoutEfficiency(Init(legs), p, e);
    }
  }

  // ---- The summary ----

  /**
    A non-positive efficiency zeroes litres, cost, per-km and per-person
    whatever the price and the rows hold (the distance is still summed), and
    the warning is set exactly when the efficiency input is not blank and
    its value is not positive.
   */
  lemma EfficiencyGate(price: Field<real>, eff: Field<real>, rows: seq<Row>)
    ensures NonPositive(ToNumber(eff)) ==>
              Aggregate(price, eff, rows) ==
              Summary(KmTotal(Legs(rows)), Num(0.0), Num(0.0), Num(0.0), Num(0.0), eff != Blank)
    ensures Aggregate(price, eff, rows).warning <==> eff != Blank && NonPositive(ToNumber(eff))
    ensures eff.Blank? ==> !Aggregate(price, eff, rows).warning && Aggregate(price, eff, rows).cost == Num(0.0)
  {
  }

  /**
    With a price input that reads as `p` and an efficiency input that reads
    as `e > 0`: litres are `kmTotal / e`, the cost accrued row by row is
    `(kmTotal / e) * p`, and the per-km cost is `p / e`.
   */
  lemma PositiveEfficiency(price: Field<real>, eff: Field<real>, rows: seq<Row>, p: real, e: real)
    requires ToNumber(price) == Num(p) && ToNumber(eff) == Num(e) && e > 0.0
    ensures var s, km := Aggregate(price, eff, rows), KmTotal(Legs(rows));
      s.km == km && s.liters == Num(km / e) && s.cost == Num(km / e * p) && s.perKm == Num(p / e) &&
      !s.warning
  {
    PositiveFigures(Legs(rows), p, e, eff.Blank?);
  }

  /** `PositiveEfficiency` for the reads of the rows. */
  lemma PositiveFigures(legs: seq<Leg>, p: real, e: real, effBlank: bool)
    requires e > 0.0
    ensures var s, km := Figures(Num(p), Num(e), effBlank, legs), KmTotal(legs);
      s.km == km && s.liters == Num(km / e) && s.cost == Num(km / e * p) && s.perKm == Num(p / e) &&
      !s.warning
  {
    CostIsLitersTimesPrice(legs, p, e);
  }

  /**
    With a positive efficiency the per-person cost is the cost divided by the
    largest people count of the checked rows, and 0 when no row is checked.
   */
  lemma PerPersonCost(price: Field<real>, eff: Field<real>, rows: seq<Row>)
    requires Positive(ToNumber(eff)) && CountsParse(rows)
    ensures var s, m := Aggregate(price, eff, rows), MaxPeople(Legs(rows));
      m.Some? && (NoneChecked(rows) ==> s.perPerson == Num(0.0)) &&
      (!NoneChecked(rows) ==> m.value >= 1 && s.perPerson == Div(s.cost, Num(m.value as real)))
  {
    MaxPeopleIsMaximum(rows);
    if !NoneChecked(rows) {
      var i :| 0 <= i < |rows| && rows[i].checked && PeopleCount(rows[i].people) == MaxPeople(Legs(rows));
    }
  }

  /**
    An unparsable efficiency is NaN: neither `e <= 0` nor `e > 0` holds, so
    no cost accrues and no warning is set, while litres and per-km are NaN.
   */
  lemma NaNEfficiency(price: Field<real>, eff: Field<real>, rows: seq<Row>)
    requires eff.Invalid?
    ensures var s := Aggregate(price, eff, rows);
      s.liters == NaN && s.perKm == NaN && s.cost == Num(0.0) && s.perPerson == Num(0.0) && !s.warning
  {
    CostWithoutEfficiency(Legs(rows), ToNumber(price), ToNumber(eff));
  }

  /** A checked row with an unparsable people input makes the per-person cost 0. */
  lemma InvalidPeopleZeroesPerPerson(price: Field<real>, eff: Field<real>, rows: seq<Row>, i: nat)
    requires Positive(ToNumber(eff))
    requires i < |rows| && rows[i].checked && rows[i].people.Invalid?
    ensures Aggregate(price, eff, rows).perPerson == Num(0.0)
  {
    InvalidPeopleIsSticky(rows, i);
  }

  lemma {:induction false} NoneCountedFolds(legs: seq<Leg>, p: Number, e: Number)
    requires NoneCounted(legs)
    ensures KmTotal(legs) == 0.0 && MaxPeople(legs) == Some(0) && CostTotal(legs, p, e) == Num(0.0)
  {
    if legs != [] {
      assert !Last(legs).counts;
      NoneCountedFolds(Init(legs), p, e);
    }
  }

  /** With no checked row the distance, the cost and the per-person cost are all 0. */
  lemma NoCheckedRows(price: Field<real>, eff: Field<real>, rows: seq<Row>)
    requires NoneChecked(rows)
    ensures var s := Aggregate(price, eff, rows);
      s.km == 0.0 && s.cost == Num(0.0) && s.perPerson == Num(0.0)
  {
    NoneCountedFolds(Legs(rows), ToNumber(price), ToNumber(eff));
  }

  // ---- Worked examples ----

  /** Price 160, efficiency 16, one checked 80 km row for 2 people: 5 L, 800, 10 per km, 400 per person. */
  lemma WorkedExample()
    ensures Aggregate(Value(160.0), Value(16.0), [Row(true, Value(80.0), Blank, Blank, Value(2), false)])
            == Summary(80.0, Num(5.0), Num(800.0), Num(10.0), Num(400.0), false)
  {
    var rows := [Row(true, Value(80.0), Blank, Blank, Value(2), false)];
    assert Init(Legs(rows)) == [];
  }

  /** Two checked rows for 2 and 4 people divide by 4. */
  lemma DivisorExample()
    ensures MaxPeople(Legs([Row(true, Value(10.0), Blank, Blank, Value(2), false),
                            Row(true, Value(10.0), Blank, Blank, Value(4), false)])) == Some(4)
  {
    var rows := [Row(true, Value(10.0), Blank, Blank, Value(2), false),
                 Row(true, Value(10.0), Blank, Blank, Value(4), false)];
    assert Init(Legs(rows)) == [Normalize(rows[0])];
    assert Init(Init(Legs(rows))) == [];
  }
}
