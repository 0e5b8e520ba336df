/**
  One segment row of the calculator (`segRow` in script.js) and the rules that
  normalise it: the one-decimal rewrite of the distance inputs, the distance
  derived from the start and end odometer readings, and the people clamp.
 */
module Segments {
  import opened Wrappers
  import opened Numbers

  /**
    What an input element's `value` holds, as far as the calculator reads it:
    the empty string, text that parses as `v` (with `parseFloat` for the
    distance inputs and `parseInt(…, 10)` for the people input), or non-blank
    text that parses as NaN.
   */
  datatype Field<T> = Blank | Value(v: T) | Invalid

  /** `parseFloat(input.value)`. */
  function ParseFloat(f: Field<real>): (n: Number)
    ensures n.NaN? <==> !f.Value?
    ensures f.Value? ==> n.val == f.v
  {
    if f.Value? then Num(f.v) else NaN
  }

  /** `n || 0`: NaN (and 0 itself) give 0. */
  function OrZero(n: Number): (r: real)
    ensures n.NaN? ==> r == 0.0
    ensures n.Num? ==> r == n.val
  {
    if n.Num? then n.val else 0.0
  }

  /** `Number(input.value || 0)`: a blank input reads as 0, unparsable text as NaN. */
  function ToNumber(f: Field<real>): (n: Number)
    ensures f.Blank? ==> n == Num(0.0)
    ensures n.NaN? <==> f.Invalid?
    ensures f.Value? ==> n == Num(f.v)
  {
    match f
    case Blank => Num(0.0)
    case Value(v) => Num(v)
    case Invalid => NaN
  }

  /** The input text a JavaScript value gets from `value="${x}"`: `""` stays blank. */
  function FieldOf(o: Option<real>): (f: Field<real>)
    ensures !f.Invalid?
    ensures f.Blank? <==> o.None?
    ensures o.Some? ==> f.v == o.value
    ensures ToNumber(f) == (if o.Some? then Num(o.value) else Num(0.0))
  {
    if o.Some? then Value(o.value) else Blank
  }

  /**
    `formatOneDecimal(input)`: a blank input is left alone, a parsable one is
    rewritten as `toFixed(1)` text, an unparsable one is left alone.
   */
  function FormatOneDecimal(f: Field<real>): (g: Field<real>)
    ensures g.Blank? <==> f.Blank?
    ensures g.Invalid? <==> f.Invalid?
    ensures f.Value? ==> IsTenths(g.v) && -0.05 <= g.v - f.v <= 0.05
    ensures f.Value? && IsTenths(f.v) ==> g == f
    ensures f.Value? ==> g == Value(Round1(f.v))
  {
    if f.Value? then Value(Round1(f.v)) else f
  }

  /**
    One row of the segment list: the "counts" checkbox, the distance input,
    the start and end odometer inputs, the people input, and whether the
    distance input is read-only.
   */
  datatype Row = Row(checked: bool, km: Field<real>, start: Field<real>, end: Field<real>,
                     people: Field<int>, readOnly: bool)

  /** The clamp `e >= s ? e - s : 0`, as a function of `e - s`. */
  function Max0(x: real): (r: real)
    ensures r >= 0.0 && r >= x
    ensures r == x || r == 0.0
  {
    if x >= 0.0 then x else 0.0
  }

  /**
    `syncKmFromSE`: when both odometer readings parse, the distance becomes
    their difference (0 when the end lies before the start), written with one
    decimal, the readings are rewritten with one decimal and the distance is
    made read-only; otherwise the distance is editable again and, unless it is
    blank, rewritten with one decimal (unparsable text becomes "NaN", which is
    unparsable text again).
   */
  function SyncKm(r: Row): (r': Row)
    ensures r'.checked == r.checked && r'.people == r.people
    ensures r'.readOnly <==> r.start.Value? && r.end.Value?
    ensures r'.readOnly ==>
              r'.km.Value? && r'.km.v >= 0.0 && -0.05 <= r'.km.v - Max0(r.end.v - r.start.v) <= 0.05
    ensures r'.readOnly ==> r'.km == Value(Round1(Max0(r.end.v - r.start.v)))
    ensures r'.readOnly ==> r'.start == Value(Round1(r.start.v)) && r'.end == Value(Round1(r.end.v))
    ensures r'.readOnly && r.end.v < r.start.v ==> r'.km == Value(0.0)
    ensures !r'.readOnly ==> r'.start == r.start && r'.end == r.end
    ensures !r'.readOnly ==> (r'.km.Blank? <==> r.km.Blank?) && (r'.km.Value? <==> r.km.Value?)
    ensures !r'.readOnly && r.km.Value? ==> -0.05 <= r'.km.v - r.km.v <= 0.05
    ensures !r'.readOnly && r.km.Value? && IsTenths(r.km.v) ==> r'.km == r.km
    ensures !r'.readOnly ==> r'.km == FormatOneDecimal(r.km)
  {
    var s := ParseFloat(r.start);
    var e := ParseFloat(r.end);
    if s.Num? && e.Num? then
      r.(start := FormatOneDecimal(r.start), end := FormatOneDecimal(r.end),
         km := Value(if e.val >= s.val then Round1(e.val - s.val) else 0.0),
         readOnly := true)
    else
      r.(readOnly := false, km := if r.km == Blank then r.km else FormatOneDecimal(r.km))
  }

  /** Start 10.0 and end 15.5 give 5.5; an end before the start gives 0.0. */
  lemma OdometerExamples()
    ensures SyncKm(Row(true, Blank, Value(10.0), Value(15.5), Value(1), false)).km == Value(5.5)
    ensures SyncKm(Row(true, Blank, Value(15.5), Value(10.0), Value(1), false)).km == Value(0.0)
  {
    assert IsTenths(5.5) by { assert (5.5 * 10.0).Floor == 55; }
  }

  /** The `input` handler of a row: rewrite start, end and distance with one decimal, then sync. */
  function OnEdit(r: Row): (r': Row)
    ensures r'.checked == r.checked && r'.people == r.people
    ensures r'.readOnly <==> r.start.Value? && r.end.Value?
    ensures Settled(r')
    ensures r'.start == FormatOneDecimal(r.start) && r'.end == FormatOneDecimal(r.end)
    ensures r'.readOnly ==> r'.km == Value(Max0(Round1(r.end.v) - Round1(r.start.v)))
    ensures !r'.readOnly ==> r'.km == FormatOneDecimal(r.km)
  {
    var f := r.(start := FormatOneDecimal(r.start), end := FormatOneDecimal(r.end),
                km := FormatOneDecimal(r.km));
    var r' := SyncKm(f);
    assert r'.readOnly ==> r'.km == Value(Max0(r'.end.v - r'.start.v)) by {
      if r'.readOnly {
        TenthsDifference(f.end.v, f.start.v);
      }
    }
    r'
  }

  /** Editing changes nothing in a settled row, so a second edit without typing is a no-op. */
  lemma OnEditIdempotent(r: Row)
    ensures Settled(r) ==> OnEdit(r) == r
    ensures OnEdit(OnEdit(r)) == OnEdit(r)
  {
  }

  /**
    The state an edited row is left in: every distance input holds one-decimal
    text (or is blank or unparsable), the distance is read-only exactly when
    both odometer readings parse, and then it equals their clamped difference.
   */
  predicate Settled(r: Row)
  {
    FormatOneDecimal(r.km) == r.km && FormatOneDecimal(r.start) == r.start
    && FormatOneDecimal(r.end) == r.end
    && (r.readOnly <==> r.start.Value? && r.end.Value?)
    && (r.readOnly ==> r.km == Value(Max0(r.end.v - r.start.v)))
  }

  /**
    `Math.max(1, parseInt(people.value || "1", 10))`: a blank input reads as 1
    and a count below 1 as 1. `None` stands for NaN, which `Math.max` passes
    through unclamped.
   */
  function PeopleCount(f: Field<int>): (c: Option<int>)
    ensures c.None? <==> f.Invalid?
    ensures c.Some? ==> c.value >= 1
    ensures f.Blank? ==> c == Some(1)
    ensures f.Value? && f.v >= 1 ==> c == Some(f.v)
    ensures f.Value? && f.v < 1 ==> c == Some(1)
  {
    match f
    case Blank => Some(1)
    case Value(n) => Some(if 1 < n then n else 1)
    case Invalid => None
  }

  /** What `recalc` takes from one row. */
  datatype Leg = Leg(counts: bool, km: real, people: Option<int>)

  /**
    The reads `recalc` makes of a row: whether the row counts, its distance
    `parseFloat(km) || 0` after the one-decimal rewrite, and its people count.
   */
  function Normalize(r: Row): (l: Leg)
    ensures l.counts == r.checked
    ensures !r.km.Value? ==> l.km == 0.0
    ensures r.km.Value? ==> l.km == Round1(r.km.v)
    ensures l.people == PeopleCount(r.people)
  {
    Leg(r.checked, OrZero(ParseFloat(FormatOneDecimal(r.km))), PeopleCount(r.people))
  }

  /** The effective distance of a settled row: the derived one when read-only, else the typed one or 0. */
  lemma SettledDistance(r: Row)
    requires Settled(r)
    ensures r.readOnly ==> Normalize(r).km == Max0(r.end.v - r.start.v)
    ensures !r.readOnly ==> Normalize(r).km == OrZero(ParseFloat(r.km))
  {
  }

  /** `recalc`'s in-place rewrite of a counted row's distance inputs. */
  function Reformat(r: Row): (r': Row)
    ensures r'.checked == r.checked && r'.people == r.people && r'.readOnly == r.readOnly
    ensures Normalize(r') == Normalize(r)
    ensures Settled(r) ==> r' == r
    ensures !r.checked ==> r' == r
    ensures r.checked ==> r'.km == FormatOneDecimal(r.km) && r'.start == FormatOneDecimal(r.start)
                          && r'.end == FormatOneDecimal(r.end)
  {
    if r.checked then
      r.(km := FormatOneDecimal(r.km), start := FormatOneDecimal(r.start),
         end := FormatOneDecimal(r.end))
    else r
  }

  /**
    The `data` object `segRow` is called with after `addSegment` merged in its
    defaults. `None` is `""` for the distance fields and `null` for people.
   */
  datatype RowData = RowData(checked: bool, km: Option<real>, start: Option<real>,
                             end: Option<real>, people: Option<int>)

  /** `addSegment({})`: `{ checked: true, people: 1 }` with blank distance fields. */
  const NewRowData := RowData(true, None, None, None, Some(1))

  /** `segRow(data)`: fill the inputs from `data`, then the initial `syncKmFromSE`. */
  function SegRow(d: RowData): (r: Row)
    ensures r.checked == d.checked
    ensures r.readOnly <==> d.start.Some? && d.end.Some?
    ensures d.people.Some? ==> r.people == Value(d.people.value)
    ensures d.people.None? ==> r.people.Invalid?
    ensures r.readOnly ==> r.start == Value(Round1(d.start.value)) && r.end == Value(Round1(d.end.value))
                           && r.km == Value(Round1(Max0(d.end.value - d.start.value)))
    ensures !r.readOnly ==> r.start == FieldOf(d.start) && r.end == FieldOf(d.end)
                            && r.km == FormatOneDecimal(FieldOf(d.km))
    ensures !r.readOnly && d.km.None? ==> r.km == Blank
  {
    SyncKm(Row(d.checked, FieldOf(d.km), FieldOf(d.start), FieldOf(d.end),
               if d.people.Some? then Value(d.people.value) else Invalid, false))
  }

  /** The row a click on "add segment" appends. */
  const EmptyRow := Row(true, Blank, Blank, Blank, Value(1), false)

  lemma EmptyRowIsNew()
    ensures SegRow(NewRowData) == EmptyRow
    ensures Settled(EmptyRow)
    ensures Normalize(EmptyRow) == Leg(true, 0.0, Some(1))
  {
  }
}
