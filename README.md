# Fuel-cost calculator: a Dafny model of its recalculation rules

The calculator (`script.js`) takes a fuel price per litre, an efficiency in
km per litre, and a list of trip segment rows. Each row has a "counts"
checkbox, a distance, start and end odometer readings and a people count.
From these it shows the summed distance, the litres needed, the total cost,
the cost per km and the cost per person. It saves the whole state after
every change.

This project models three parts of that code:

- **the segment normaliser** (module `Segments`). This covers
  `formatOneDecimal`, `syncKmFromSE`, the row `input` handler and `segRow`,
  and the per-row reads that `recalc` makes:
  - when both odometer readings parse, the distance is their difference,
    clamped at 0, and the distance input becomes read-only;
  - otherwise the typed distance is used, and a blank distance counts as 0;
  - the people count is clamped to at least 1;
  - rows that are not checked take no part.
- **the aggregator** (module `Aggregation`). `recalc`'s totals are written
  as folds over the rows, taken in order:
  - the distance sum and the largest people count;
  - the cost, accrued row by row as `(km / e) * p`;
  - all totals zeroed when the efficiency is not positive, with a warning
    only when the efficiency input is not blank;
  - per-person cost divides by the maximum people count, and is 0 when no
    row counts.
- **the segment list** (module `Trips`). Class `Trip` holds the inputs, the
  rows (a `seq` its methods reassign), what is displayed and what is
  stored. Its methods are the page's handlers:
  - add and delete a row, clear the rows, reset;
  - edit a row, the price or the efficiency;
  - restore from a snapshot, and start up.

  `Trip.Recalc` is `recalc`'s loop. It rewrites the checked rows in place
  and keeps the three running totals. It is proved equal to the
  `Aggregate` function.

Module `Storage` models the record `saveState` writes and `fromState`
reads back, as a value (`Snapshot`). Module `Numbers` models the JavaScript
number behaviour the calculator depends on:
- NaN, which `Math.max`, `+`, `*` and `/` propagate, and which fails both
  `e > 0` and `e <= 0`;
- the value that `toFixed(1)` text denotes (`Round1`).

Numbers are exact reals. An input's value is modelled as a `Field`: blank,
text that parses as a number, or non-blank text that parses as NaN.

Some consequences of the code are worth stating up front:

- A row's delete button (script.js:84) removes that row even when it is the
  last one. So `Trip.Delete` can empty the list, and no non-emptiness
  invariant is claimed. Startup, restore, clear and reset each do leave at
  least one row.
- The people count is `Math.max(1, parseInt(…))` (script.js:152). For text
  that `parseInt` reads as NaN, `Math.max` returns NaN unchanged.
  `Segments.PeopleCount` returns `None` (NaN) for such a `Field`. A NaN count
  makes the per-person divisor NaN for the rest of the pass, and the
  per-person cost is then 0 (`Aggregation.InvalidPeopleIsSticky`,
  `Aggregation.InvalidPeopleZeroesPerPerson`). This case arises only under
  the model's `Field`, which does not assume browser sanitisation. The people
  input has `type="number"` (script.js:34), and a browser sanitises such
  unparsable text (and `value="null"`) to "", which reads as 1.
- Saving and reloading reproduces the totals (`Storage.SaveRestoreTotals`),
  with three exceptions:
  - A blank efficiency is saved as `Number("" || 0) = 0`. It comes back as
    the text "0", which is not blank, so the warning appears after a reload
    (`Storage.BlankEfficiencyWarnsAfterReload`).
  - `parseFloat(x) || ""` saves a reading of 0 as blank. After a reload, a
    row whose start reading was 0 has an editable distance, although it
    keeps its distance (`Storage.ZeroStartReadingDropped`).
  - An unparsable price or efficiency is NaN, which JSON writes as `null`
    (`Storage.Stored`). It comes back as a blank input, which reads as 0, so
    the figures change. `Storage.SaveRestoreTotals` therefore requires both
    inputs to be blank or parsable.

## Model

| member | source | states |
|---|---|---|
| `Numbers.Round1` | script.js:48 | the value of `toFixed(1)`: within 0.05 of the input, a whole number of tenths, non-negative for a non-negative input, and unchanged when the input already is whole tenths; an exact tie rounds away from zero (strictly within 0.05 below a non-negative input, strictly within 0.05 above a negative one) |
| `Numbers.TiesAwayFromZero` | script.js:48 | `(0.25).toFixed(1)` denotes 0.3 and `(-0.25).toFixed(1)` denotes -0.3 |
| `Numbers.Add` | script.js:150-158 | `a + b` is NaN exactly when an operand is NaN |
| `Numbers.Mul` | script.js:158 | `a * b` is NaN exactly when an operand is NaN |
| `Numbers.Div` | script.js:157 | `a / b` for a non-zero divisor is NaN exactly when an operand is NaN |
| `Numbers.Comparisons` | script.js:156-165 | the two efficiency tests `e > 0` (`Positive`) and `e <= 0` (`NonPositive`): NaN passes neither, and a number passes exactly one |
| `Segments.ToNumber` | script.js:129-130 | `Number(v \|\| 0)`: a blank input reads as 0, unparsable text as NaN, anything else as its value |
| `Segments.ParseFloat` | script.js:149 | `parseFloat(input.value)` is NaN exactly when the input is blank or unparsable, and otherwise the parsed value |
| `Segments.OrZero` | script.js:149 | `n \|\| 0` turns NaN into 0 and keeps any number |
| `Segments.FieldOf` | script.js:101-102 | a value written back into an input (`value="${x}"`, `s.price ?? ""`) is never unparsable; it is blank exactly when nothing was saved, otherwise the saved value, and `Number(x \|\| 0)` reads it back as that value or 0 |
| `Segments.FormatOneDecimal` | script.js:45-49 | a blank input stays blank (never becomes 0.0); unparsable text stays unparsable; a parsable value `v` is rewritten to the `toFixed(1)` value `Round1(v)`: whole tenths within 0.05 of it, ties away from zero; a one-decimal value is left unchanged |
| `Segments.Max0` | script.js:60-64 | the derived distance `e >= s ? e - s : 0` is the larger of `e - s` and 0 |
| `Segments.SyncKm` | script.js:51-72 | the distance is read-only exactly when both readings parse. It then equals the rounded `max(0, end - start)`, and is 0 when end < start; both readings are rewritten as their `toFixed(1)` values. Otherwise the readings are untouched, the distance is editable, and it becomes `FormatOneDecimal` of what was typed (blank stays blank, a one-decimal value is kept). Checkbox and people are unchanged |
| `Segments.OdometerExamples` | script.js:56-64 | start 10.0 and end 15.5 give 5.5; end before start gives 0.0 |
| `Segments.OnEdit` | script.js:74-81 | after an edit, start and end are `FormatOneDecimal` of what was typed; the distance is read-only exactly when both parse, and then equals `max(0, Round1(end) - Round1(start))`; otherwise it is `FormatOneDecimal` of the typed distance. The row is settled; checkbox and people are unchanged |
| `Segments.OnEditIdempotent` | script.js:74-81 | the edit handler leaves a settled row unchanged, so running it twice is the same as once |
| `Segments.PeopleCount` | script.js:152 | blank reads as 1, a count below 1 as 1, a count of at least 1 as itself; unparsable text is NaN (`None`) and only then |
| `Segments.Normalize` | script.js:133-152 | a row counts exactly when checked; a blank or unparsable distance reads as 0, a parsed one as exactly `Round1` of what was typed; the people count is `PeopleCount` of the input |
| `Segments.SettledDistance` | script.js:56-71 | for a settled row the distance read is exactly the derived `max(0, end - start)` when read-only, and the typed value (0 if blank or unparsable) otherwise |
| `Segments.Reformat` | script.js:137-147 | an unchecked row is left untouched; a checked row's distance, start and end become their `FormatOneDecimal` values; the rewrite changes none of the row's reads and leaves a settled row as it is |
| `Segments.SegRow` | script.js:25-88 | a row created from saved data has the saved checkbox and people count (NaN saved as `null` stays unparsable). When both readings were saved it is read-only, with readings `Round1` of the saved ones and distance `Round1(max(0, end - start))`; otherwise the readings are the saved ones (or blank), and the distance is `FormatOneDecimal` of the saved one (blank when none was saved) |
| `Segments.EmptyRowIsNew` | script.js:92-93 | `addSegment({})` creates a checked row with blank inputs and people 1, which is settled and reads as distance 0, people 1 |
| `Aggregation.Legs` | script.js:132-152 | the reads `recalc` makes of the rows: one per row, in order, each `Normalize` of its row |
| `Aggregation.ReformatCounted` | script.js:137-147 | the in-place rewrite over the whole list: same length, each row `Reformat` of the row at that place |
| `Aggregation.ReformatCountedKeeps` | script.js:140-147 | rewriting the checked rows changes no read, is idempotent, and changes no settled row |
| `Aggregation.KmTotal` | script.js:149-150 | the running distance total is non-negative whenever no row's distance is negative |
| `Aggregation.MaxCount` | script.js:153 | `Math.max` of two counts is NaN exactly when either is NaN, and otherwise the larger of the two |
| `Aggregation.MaxPeople` | script.js:152-153 | `maxPeople` is NaN exactly when some counted row's count is NaN, and is otherwise at least 0 |
| `Aggregation.RowCost` | script.js:157-158 | one counted row's cost `(km / e) * p` is NaN exactly when the price is |
| `Aggregation.RowCostTimesEfficiency` | script.js:157-158 | for a number price, one row's cost is its litres `km / e` at price `p`: cost times `e` is `km * p` |
| `Aggregation.CostTotal` | script.js:156-159 | `costTotal` can be NaN only when the price is NaN |
| `Aggregation.Figures` | script.js:162-182 | the distance and the cost are the folds; litres are NaN exactly when the efficiency is; per-km is NaN exactly when the efficiency is NaN or the price is NaN and `e <= 0` fails; the warning is set exactly when the efficiency input is non-blank and `e <= 0`; without `e > 0` the cost and the per-person cost are 0 |
| `Aggregation.Aggregate` | script.js:124-185 | `recalc` reads the price and efficiency with `Number(x \|\| 0)`, and the rows with `Normalize`; the warning is set exactly when the efficiency input is non-blank and reads as a number `<= 0`; litres are NaN exactly when the efficiency is unparsable |
| `Aggregation.UncountedLegIgnored` | script.js:137 | a row that does not count, wherever it stands, changes neither `kmTotal`, `maxPeople` nor `costTotal` |
| `Aggregation.UncheckedRowIgnored` | script.js:132-137 | inserting an unchecked row anywhere changes no displayed figure and no warning |
| `Aggregation.MaxPeopleIsMaximum` | script.js:152-153 | when the counts parse, the divisor is at least every checked row's count and equals one of them (the maximum, not the sum); it is 0 exactly when no row is checked |
| `Aggregation.InvalidPeopleIsSticky` | script.js:152-153 | one checked row with an unparsable people count makes the divisor NaN whatever the other rows hold |
| `Aggregation.CostIsLitersTimesPrice` | script.js:156-159 | accruing `(km / e) * p` row by row equals `(kmTotal / e) * p` |
| `Aggregation.NaNPriceCost` | script.js:129-159 | with a NaN price the cost is NaN once any row counts, and 0 when none does |
| `Aggregation.CostWithoutEfficiency` | script.js:156-159 | no cost accrues unless `e > 0` |
| `Aggregation.EfficiencyGate` | script.js:164-173 | with `e <= 0` litres, cost, per-km and per-person are 0 whatever the price and rows, and the distance is still summed; the warning is set if and only if the efficiency input is non-blank and `e <= 0`; a blank efficiency never warns |
| `Aggregation.PositiveEfficiency` | script.js:175-181 | with a price that reads as `p` and an efficiency that reads as `e > 0`: litres are `kmTotal / e`, the cost is `(kmTotal / e) * p`, per-km is `p / e`, no warning |
| `Aggregation.PerPersonCost` | script.js:177 | with `e > 0` the per-person cost is the cost divided by the largest checked people count (at least 1), and 0 when no row is checked |
| `Aggregation.NaNEfficiency` | script.js:156-177 | an unparsable efficiency passes neither test: no cost, no warning, per-person 0, litres and per-km NaN |
| `Aggregation.InvalidPeopleZeroesPerPerson` | script.js:177 | a NaN divisor makes the per-person cost 0 |
| `Aggregation.NoneCountedFolds` | script.js:125-127 | with no counting row the running totals keep their starting values 0, 0 and 0 |
| `Aggregation.NoCheckedRows` | script.js:125-177 | with no checked row the distance, the cost and the per-person cost are 0 |
| `Aggregation.WorkedExample` | script.js:124-182 | price 160, efficiency 16, one 80 km row for 2 people: 5 L, 800, 10 per km, 400 per person, no warning |
| `Aggregation.DivisorExample` | script.js:153 | checked rows for 2 and 4 people give the divisor 4 |
| `Storage.SaveDistance` | script.js:111-113 | a reading is saved exactly when it parses to a non-zero value, and then as that value |
| `Storage.Stored` | script.js:116-118 | JSON stores a number as itself, and NaN as `null` |
| `Storage.SaveRow` | script.js:109-115 | the saved record keeps the checkbox, stores each of distance, start and end as `SaveDistance` of the input, and stores the clamped people count |
| `Storage.Save` | script.js:108-120 | price and efficiency are saved as `Number(x \|\| 0)` as JSON stores it (blank as 0, unparsable as `null`); one saved record per row, in row order |
| `Storage.RestoreRows` | script.js:104 | one row per saved record, or exactly one new row when none is saved |
| `Storage.StartRows` | script.js:225-226 | startup has at least one row; with no snapshot, or a snapshot without rows, it has exactly the one new row |
| `Storage.SaveRestoreRow` | script.js:108-115 | a settled row saved and recreated is settled again and reads the same checkbox, distance and people count |
| `Storage.NewRowAddsNothing` | script.js:104 | with a parsed price, the one fallback row gives the same figures as no rows |
| `Storage.SaveRestoreTotals` | script.js:99-120 | saving settled rows and restoring them reproduces every figure when price and efficiency parse or are blank; the warning after the reload is the old warning, or set when the efficiency was blank |
| `Storage.BlankEfficiencyWarnsAfterReload` | script.js:118 | a blank efficiency does not warn, is saved as 0, and warns once restored |
| `Storage.ZeroStartReadingDropped` | script.js:112 | a settled row with start reading 0 is read-only, comes back editable, and keeps its distance read |
| `Trips.Trip.Start` | script.js:225-227 | startup takes price and efficiency from the snapshot if there is one; rows are the restored rows (or one new row), reformatted, at least one; the display equals `Aggregate` of the state, and the state is saved |
| `Trips.Trip.FromState` | script.js:99-105 | restore sets price and efficiency from the snapshot and replaces the rows by the restored ones (one new row if none were saved) |
| `Trips.Trip.Recalc` | script.js:124-185 | after the pass over the rows, exactly the checked rows are rewritten in place, and the display is `Aggregate` of the rows (before and after the rewrite); price and efficiency are unchanged; the state is saved |
| `Trips.Trip.Tally` | script.js:125-160 | the `forEach` loop leaves `kmTotal`, `maxPeople` and `costTotal` equal to the folds over the rows' reads, and rewrites exactly the checked rows in place; nothing else changes |
| `Trips.Trip.Visit` | script.js:132-160 | the callback for one row: an unchecked row changes nothing; a checked row is rewritten in place, adds its distance to `kmTotal`, raises `maxPeople` with `Math.max` to its people count, and, when `e > 0`, adds `(km / e) * p` to `costTotal` |
| `Trips.Trip.AddSegment` | script.js:92-96 | appends the row `segRow` builds from the data, then recalculates and saves |
| `Trips.Trip.Add` | script.js:188 | appends exactly one new row; the rows before it are only reformatted, and unchanged when settled |
| `Trips.Trip.Delete` | script.js:84 | removes exactly the chosen row (the list may become empty); the others keep their order |
| `Trips.Trip.ClearSegments` | script.js:189 | leaves exactly one new row |
| `Trips.Trip.Reset` | script.js:193-198 | blanks price and efficiency and leaves exactly one new row; all figures are 0 with no warning; the saved state is that reset state |
| `Trips.Trip.EditRow` | script.js:74-83 | the edited row becomes `OnEdit` of what was typed and is settled; the other rows are only reformatted; all rows stay settled if they were |
| `Trips.Trip.EditPrice` | script.js:191 | sets the price and recalculates |
| `Trips.Trip.EditEfficiency` | script.js:191 | sets the efficiency and recalculates |

## Left out

- DOM lookup, `innerHTML` templating and event-listener wiring (script.js:7-22, 29-43, 83). Each handler is a method of `Trip`. The `readOnly` attribute is kept only as a boolean on the row. The model does not stop a user from typing into a read-only distance: `EditRow` accepts any typed row.
- Display text. `toFixed(2)` and `Intl.NumberFormat` yen rendering (script.js:2, 162-182) are left out, and `Summary` holds the underlying values. `toFixed(1)` is kept because it is written back into the inputs and read again.
- `localStorage` and JSON (script.js:3-4, 116-120, 194). A snapshot is a value. `load` returning `null`, or failing to parse, is `saved == None`. The model keeps that JSON writes NaN as `null`, because `fromState` then reads a blank price.
- `parseFloat`, `parseInt` and `Number` on text. They are abstracted by `Field`, whose `Value(v)` is the parse result. `Value(n)` of the people input is what `parseInt` returns, so `"2.7"` is `Value(2)`. Browser sanitising of number inputs is not assumed, so non-blank NaN text is possible.
- IEEE floating point. Numbers are exact reals, so `CostIsLitersTimesPrice` is exact, with no rounding error. The infinities are not modelled either: in the program `km / e` with a tiny positive `e` can overflow to Infinity, and `parseFloat("1e999")` is Infinity.
- The share button (script.js:200-222), clipboard and `alert`. These are asynchronous foreign I/O with no effect on the state.
- The page's initial price and efficiency, which come from markup that is not part of this model. They are parameters of `Trip.Start`.
- The date field and the global-people variants. They are not in script.js.
