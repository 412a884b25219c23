# Profit prediction calculator — a Dafny model of its core

The profit prediction calculator is a WordPress plugin. A visitor enters an
initial investment, a monthly revenue, monthly costs and a monthly growth
rate. The server projects six months of business from those figures.

This project models three pieces of that plugin and proves properties about
them:

- **The projection engine** (`projection.dfy`, module `Projection`). It
  models `ProfitPredictionCalculator::perform_calculations`. A loop over
  months 1..6 compounds the revenue by the growth rate and subtracts flat
  costs. It keeps a running total of profit and compares it with the
  investment. It remembers the first month whose net profit is strictly
  positive, and records one rounded row per month. After the loop it computes
  the ROI, the total profit and a summary. The module also models the integer
  that `store_calculation` stores for the break-even month.
  - `PerformCalculations` is a method with the loop of the source. It is
    proved equal to the specification function `Calculate`.
  - `Calculate` is built from the unrounded recurrences `Revenue`, `Profit`,
    `Cumulative` and `Net`.
  - `Round2` is PHP's `round($x, 2)`: halves are rounded away from zero.
- **Number formatting** (`number_format.dfy`, module `NumberFormat`). It
  models the front end's `formatNumber`:
  `Math.abs(num).toFixed(2).replace(/\B(?=(\d{3})+(?!\d))/g, ',')`.
  - The number is given as a whole count of cents.
  - The regular-expression replacement is modelled position by position, as
    the matcher tries it.
  - The lookahead is proved to mean "a positive multiple of three digits
    ahead".
  - The whole replacement is proved equal to the usual right-to-left grouping
    of the integer digits in threes.
- **Form validation** (`field_validation.dfy`, module `FieldValidation`). It
  models the front end's `validateRequiredFields`, which makes three checks
  in order:
  - no required field is blank;
  - the e-mail matches `/^[^\s@]+@[^\s@]+\.[^\s@]+$/`;
  - the four numeric fields parse to non-negative numbers.

  The validator is a method with the two loops of the source. It is proved
  equal to a one-statement predicate of validity. That predicate is then
  characterised without the pattern and without `trim`.

`wrappers.dfy` holds the `Option` type.

Three behaviours of the code worth noting:

- The `costs` column of a row is the input monthly costs, not rounded
  (profit-prediction-calculator.php:166). The other money columns are
  rounded.
- `total_revenue_6m` is the rounded sum of the already rounded monthly
  revenues (profit-prediction-calculator.php:184). It is not a rounding of
  the unrounded sum. `SummaryTotals` proves that the outer round changes
  nothing, because the sum is already a whole number of cents. It bounds the
  difference from the unrounded sum by six half-cents.
- ROI is computed only for a strictly positive investment
  (profit-prediction-calculator.php:175). A zero or a negative investment
  gives ROI 0.

With investment 10000, revenue 3000, costs 2000 and growth 5%, the running
profit after six months is 8405.7384375. That is below the investment, so no
month breaks even (`SteadyGrowthNeverBreaksEven`).

## Model

| member | source | states |
|---|---|---|
| Projection.PerformCalculations | profit-prediction-calculator.php:142-189 | The loop's result is exactly `Calculate(d)`. Its invariant keeps the running total equal to `Cumulative` of the months done, and the net profit is that total less the investment. It has six rows numbered 1..6. The break-even is a month exactly when some month of 1..6 has a strictly positive net profit. That month has a positive net profit, and no earlier month does. |
| Projection.Months | profit-prediction-calculator.php:143 | The horizon `$months = 6`. `PerformCalculations` and `HorizonShape` state that the result has exactly that many rows, numbered 1..6. |
| Projection.Calculate | profit-prediction-calculator.php:142-189 | The value perform_calculations returns. `PerformCalculations` is proved to compute it; `HorizonShape`, `BreakEvenResult`, `RoiCases` and `SummaryTotals` state its fields. |
| Projection.BreakEvenAfter | profit-prediction-calculator.php:146-161 | `$break_even_month` after k months. `BreakEvenIsFirst` proves it is 0 or the first month with a positive net profit; `BreakEvenStable` proves it is never overwritten. |
| Projection.TotalProfit | profit-prediction-calculator.php:174 | The unrounded total profit. `RoiCases` states that its rounding is the result's total profit. |
| Projection.Roi | profit-prediction-calculator.php:175 | The unrounded ROI. `RoiCases` states that it is 0 without a positive investment. Otherwise it is positive, zero or negative exactly when the total profit is. |
| Projection.SumRevenue | profit-prediction-calculator.php:184 | `array_sum` of the revenue column. `SumRevenueOfRecords` states that it sums the rounded revenues and bounds its distance from the unrounded total. |
| Projection.Pow | profit-prediction-calculator.php:150 | PHP `pow` to a whole exponent. `PowOne`, `PowZero`, `PowAtLeastOne` and `GeometricSumClosed` state its properties. |
| Projection.Multiplier | profit-prediction-calculator.php:150 | `$growth_multiplier` of month i. `FirstMonthRevenue` states that it is 1 in month 1; `RevenueNondecreasing` states that it does not shrink with non-negative growth. |
| Projection.Revenue | profit-prediction-calculator.php:151 | `$monthly_revenue` before rounding. `FirstMonthRevenue`, `NoGrowthIsFlat`, `FullDeclineZeroesRevenue`, `RevenueNondecreasing` and `RevenueSumGeometric` state its properties. |
| Projection.Profit | profit-prediction-calculator.php:152 | `$monthly_profit` before rounding. `NoGrowthIsFlat` and `ZeroMarginRow` state its value in those cases; `CumulativeIsRevenueLessCosts` sums it. |
| Projection.Cumulative | profit-prediction-calculator.php:145-153 | `$cumulative_profit` after month i. `CumulativeIsRevenueLessCosts`, `CumulativeClosedForm` and `CumulativeGeometric` give it in closed form. `PerformCalculations` keeps its loop variable equal to it. |
| Projection.Net | profit-prediction-calculator.php:156 | `$net_profit` of month i. `BreakEvenIsFirst` and `BreakEvenResult` state the break-even month in terms of it. |
| Projection.Record | profit-prediction-calculator.php:163-170 | The row literal of month i. `HorizonShape` states its columns, and `ProjectMonth` is proved to build it. |
| Projection.RecordsUpTo | profit-prediction-calculator.php:144-170 | `$projections` after k passes. `RecordsUpToAt` states its length and entries. |
| Projection.SteadyGrowthTotals | profit-prediction-calculator.php:150-156 | For investment 10000, revenue 3000, costs 2000 and growth 5%: month 1's revenue, profit, running total and net profit, month 6's revenue 3828.8446875, the six-month total 8405.7384375, and no positive net profit in any month. |
| Projection.ProjectMonth | profit-prediction-calculator.php:150-170 | One loop pass for month i, given the running total of months 1..i-1. It returns the running total and net profit of month i and that month's recorded row. |
| Projection.Round2OnGrid | profit-prediction-calculator.php:184 | Rounding a whole number of cents to two digits leaves it unchanged. |
| Projection.GridClosed | profit-prediction-calculator.php:153-156 | Sums and differences of whole numbers of cents are whole numbers of cents. |
| Projection.RoundedRevenueSumOnGrid | profit-prediction-calculator.php:184 | Any sum of rounded monthly revenues is a whole number of cents. |
| Projection.Round2 | profit-prediction-calculator.php:165-169 | `round($x, 2)` is a whole number of cents, never more than half a cent from x, and never of the opposite sign. A tie goes away from zero: the result is strictly less than half a cent below a non-negative x and strictly less than half a cent above a negative x, so the contract fixes the result uniquely. |
| Projection.ToBreakEven | profit-prediction-calculator.php:180 | `$break_even_month ?: 'Not within 6 months'`: 0 becomes the sentinel, and any other month is kept. |
| Projection.StoredBreakEven | profit-prediction-calculator.php:206 | The stored column is the month when it is numeric, and 0 for the sentinel. |
| Projection.RecordsUpToAt | profit-prediction-calculator.php:163-170 | After k passes the projections array has k entries, and entry j is the row of month j+1. |
| Projection.HorizonShape | profit-prediction-calculator.php:143-170 | Exactly six rows, in ascending month order. The costs column equals the input costs. Every other money column is the rounding of that month's unrounded value. |
| Projection.RowOf | profit-prediction-calculator.php:163-170 | Row k of the result is the record of month k+1. |
| Projection.FirstMonthRevenue | profit-prediction-calculator.php:150-151 | Month 1 is not grown: its revenue is the base monthly revenue (rounded in the row). |
| Projection.NoGrowthIsFlat | profit-prediction-calculator.php:150-153 | With growth 0, every month has the base revenue and the same profit. The running total after i months is i times the margin. All rows show the same revenue and profit. |
| Projection.NoGrowthCumulative | profit-prediction-calculator.php:150-153 | With growth 0, the running total after i months is i times (revenue − costs). |
| Projection.FullDeclineZeroesRevenue | profit-prediction-calculator.php:150-151 | With growth −100, the revenue of every month from 2 on is exactly 0. |
| Projection.RevenueNondecreasing | profit-prediction-calculator.php:150-151 | With a non-negative growth rate and revenue, no month earns less than the month before. |
| Projection.GeometricSumClosed | profit-prediction-calculator.php:150-151 | The growth multipliers of months 1..n sum to (rⁿ − 1)/(r − 1), stated without division. |
| Projection.RevenueSumGeometric | profit-prediction-calculator.php:150-151 | The unrounded revenue of months 1..i is the base revenue times the sum of the first i powers of the growth factor. |
| Projection.CumulativeIsRevenueLessCosts | profit-prediction-calculator.php:151-153 | The running profit after i months is the revenue of months 1..i less i months of costs. |
| Projection.CumulativeClosedForm | profit-prediction-calculator.php:150-153 | Closed form of the running profit: base revenue times a geometric sum of the growth factor, less i months of costs. |
| Projection.CumulativeGeometric | profit-prediction-calculator.php:150-153 | With growth factor r, (r − 1) times (the running profit after i months plus i months of costs) is the base revenue times (rⁱ − 1). |
| Projection.RecordedCumulativeWithinRounding | profit-prediction-calculator.php:165-168 | Each column is rounded separately. So a row's cumulative profit equals the previous row's cumulative profit plus the row's profit only to within one cent. |
| Projection.BreakEvenIsFirst | profit-prediction-calculator.php:146-161 | After k months, the break-even variable is 0 exactly when no month of 1..k has a positive net profit. Otherwise it is the first such month. |
| Projection.BreakEvenStable | profit-prediction-calculator.php:159-161 | Once set, a later month never overwrites the break-even month. |
| Projection.BreakEvenResult | profit-prediction-calculator.php:159-180 | The result's break-even is `Month(m)` if and only if m is the first month of 1..6 with a positive net profit. It is the sentinel if and only if no month of 1..6 has one. |
| Projection.RoiCases | profit-prediction-calculator.php:174-179 | Total profit is the rounding of (final running total − investment). ROI is 0 unless the investment is positive; otherwise it is the rounding of (unrounded total profit ÷ investment × 100). With a positive investment, unrounded ROI is positive, zero or negative exactly when total profit is. |
| Projection.ProfitableMeansBreakEven | profit-prediction-calculator.php:156-180 | A positive unrounded total profit means some month of the horizon broke even. |
| Projection.SumRevenueOfRecords | profit-prediction-calculator.php:184 | The revenue column of the first k rows sums to the sum of the rounded revenues. That is within k half-cents of the unrounded revenue. |
| Projection.SummaryTotals | profit-prediction-calculator.php:182-187 | The summary repeats the investment and growth rate. It holds six months of costs, rounded. Its revenue total is exactly the sum of the rounded revenues, as the outer round changes nothing, and is within six half-cents of the unrounded six-month revenue. |
| Projection.StoredBreakEvenRoundTrip | profit-prediction-calculator.php:206 | Storing the break-even value of any loop state gives back that state's integer. |
| Projection.StoredBreakEvenOfResult | profit-prediction-calculator.php:206 | The stored column lies in 0..6 and is 0 exactly for the sentinel. It equals the loop's final break-even variable. |
| Projection.SteadyGrowthNeverBreaksEven | profit-prediction-calculator.php:142-189 | Investment 10000, revenue 3000, costs 2000, growth 5%. Month 1 is (1, 3000, 2000, 1000, 1000, −9000). Month 6 earns 3828.84. The six-month running profit is 8405.7384375. No month breaks even. |
| Projection.ZeroMarginRow | profit-prediction-calculator.php:150-169 | With no investment, no growth and revenue equal to costs, every month's profit and net profit are recorded as exactly 0. |
| Projection.ZeroMarginNoBreakEven | profit-prediction-calculator.php:159-180 | In the same case a net profit of exactly 0 is never a break-even, so the result is the sentinel. |
| Projection.ZeroMarginNeverBreaksEven | profit-prediction-calculator.php:142-189 | In the same case all six rows show profit 0 and net profit 0, there is no break-even, and ROI is 0. |
| Projection.FullDeclineKeepsOnlyFirstMonth | profit-prediction-calculator.php:150-165 | With growth −100, month 1 shows the rounded base revenue and months 2..6 show revenue 0. |
| NumberFormat.Decimal | calculator.js:457 | The decimal numeral of a whole number is a non-empty digit string with no leading zero. |
| NumberFormat.DecimalRoundTrip | calculator.js:457 | Reading the numeral back gives the number. |
| NumberFormat.ToFixed2 | calculator.js:457 | `toFixed(2)` of a non-negative number of cents: integer digits, a '.', and two digits. |
| NumberFormat.ToFixed2RoundTrip | calculator.js:457 | `toFixed(2)` loses nothing: reading it back gives the cents again. |
| NumberFormat.DigitRun | calculator.js:457 | The length of the run of digits at a position: every character in it is a digit, and it stops at the end or at a non-digit. |
| NumberFormat.Abs | calculator.js:457 | `Math.abs` of a whole number of cents. `FormatNumberShape` states that the output has no minus sign; `FormatNumberWithoutCommas` states that it reads back as the absolute value. |
| NumberFormat.IsDigit | calculator.js:457 | The `\d` class of the lookahead. `SeparatorAtIsRegexMatch` states the lookahead in terms of it. |
| NumberFormat.IsWordChar | calculator.js:457 | The `\w` class that `\B` looks at. `SeparatorAtIsRegexMatch` uses it through `NotBoundary`. |
| NumberFormat.NotBoundary | calculator.js:457 | `\B` at a position. `SeparatorAtIsRegexMatch` states that it is half of the separator condition; `InsertSeparatorsIsGroupFrom` uses that it fails only at the very front of the digits. |
| NumberFormat.GroupsOfThreeAhead | calculator.js:457 | The lookahead `(?=(\d{3})+(?!\d))`, as the pattern states it. `SeparatorAtIsRegexMatch` proves it equivalent to "the run of digits ahead is a positive multiple of three long". |
| NumberFormat.SeparatorAt | calculator.js:457 | Whether the replacement inserts a comma at a position. `SeparatorAtIsRegexMatch` proves it holds exactly when `\B` and the lookahead both match there. |
| NumberFormat.InsertSeparators | calculator.js:457 | The `.replace(/\B(?=(\d{3})+(?!\d))/g, ',')`, position by position. `SeparatorAtIsRegexMatch` ties each position to the pattern; `InsertSeparatorsIsGroupFrom` and `RemoveInsertedSeparators` state what it produces. |
| NumberFormat.FormatNumber | calculator.js:456-458 | `formatNumber` itself. `FormatNumberShape` states the shape of its output and that the integer part is grouped in threes; `FormatNumberWithoutCommas` states that without commas it is `toFixed(2)` of the absolute value. |
| NumberFormat.SeparatorAtIsRegexMatch | calculator.js:457 | A separator goes at a position exactly when `\B` holds there and `(?=(\d{3})+(?!\d))` matches: that is, when a positive multiple of three digits follows and then no digit. |
| NumberFormat.FractionUnchanged | calculator.js:457 | The replacement inserts nothing into the '.' and the two fraction digits. |
| NumberFormat.InsertSeparatorsIsGroupFrom | calculator.js:457 | On `toFixed(2)` text, the replacement equals a comma before each integer digit, other than the first, that has a multiple of three digits after it, followed by the unchanged fraction. |
| NumberFormat.GroupFromSplit | calculator.js:457 | Grouping j followed by three more digits is grouping j, a comma, then those three digits. |
| NumberFormat.GroupFromIsGroupThousands | calculator.js:457 | That position-by-position grouping equals grouping the digits in threes from the right. |
| NumberFormat.GroupFromCount | calculator.js:457 | Grouping keeps every digit: the grouped text has as many digits as the input. |
| NumberFormat.GroupFromAlphabet | calculator.js:457 | The grouped text contains only digits and commas. |
| NumberFormat.GroupFromCommas | calculator.js:457 | Every comma the grouping writes is followed by a positive multiple of three digits. |
| NumberFormat.RemoveInsertedSeparators | calculator.js:457 | Deleting the commas from the replaced text gives back the comma-free input. |
| NumberFormat.GroupedShape | calculator.js:457 | Grouped integer digits, a '.' and two digits: at least four characters. The text starts with a digit and has a single '.' at the third place from the end. Only digits and commas come before it. Every comma is followed by a positive multiple of three digits before the '.'. |
| NumberFormat.FormatNumberShape | calculator.js:456-458 | `formatNumber` output has that shape, and has no minus sign. Its integer part is the integer digits grouped in threes from the right. Its last two characters are those of `toFixed(2)`. |
| NumberFormat.FormatNumberWithoutCommas | calculator.js:456-458 | Deleting the commas of `formatNumber` output gives exactly `Math.abs(x).toFixed(2)`. That text reads back as the absolute number of cents. |
| FieldValidation.RequiredFields | calculator.js:49-52 | The six fields that must not be blank, in the order they are checked. `ValidateRequiredFields` loops over them. |
| FieldValidation.NumericFields | calculator.js:69 | The four fields that must be non-negative numbers, in order. `ValidateRequiredFields` loops over them. |
| FieldValidation.IsSpace | calculator.js:56-63 | The white space of `\s` and of `trim`. `TrimEmptyIffAllSpace` and `EmailPatternIsShape` state their results in terms of it. |
| FieldValidation.EmailWord | calculator.js:63 | `[^\s@]+`: a non-empty run without white space or '@'. `EmailPatternIsShape` characterises the pattern built from it. |
| FieldValidation.NonNegativeNumber | calculator.js:72 | The negation of `isNaN(value) \|\| value < 0`. `ValidationFailsExactly` states the validator's result in terms of it. |
| FieldValidation.Trim | calculator.js:56 | `String.prototype.trim`. `TrimEmptyIffAllSpace` states that it gives "" exactly for all-white-space text. |
| FieldValidation.Blank | calculator.js:55-56 | `!value \|\| value.trim() === ''`. `BlankMeansMissingOrSpace` states it holds exactly for a missing or all-white-space field. |
| FieldValidation.EmailPattern | calculator.js:63-64 | The e-mail regular expression, as a choice of the '@' and '.' positions. `EmailPatternIsShape` characterises it without the pattern. |
| FieldValidation.FieldsValid | calculator.js:48-78 | What the validator accepts, as one statement. `ValidateRequiredFields` is proved to compute it; `ValidationFailsExactly` characterises its failure. |
| FieldValidation.TrimEmptyIffAllSpace | calculator.js:56 | `trim()` leaves the empty string exactly when every character is white space. |
| FieldValidation.BlankMeansMissingOrSpace | calculator.js:54-59 | A field fails the required check exactly when it is missing or is nothing but white space (the empty string included). |
| FieldValidation.EmailPatternIsShape | calculator.js:62-66 | The e-mail pattern holds exactly when the text has no white space and exactly one '@', not at the front, and after it a '.' that is neither right after the '@' nor last. |
| FieldValidation.ValidateRequiredFields | calculator.js:48-78 | The validator, with its two loops and early returns, accepts exactly when every required field is non-blank, the e-mail matches the pattern, and every numeric field parses to a non-negative number. |
| FieldValidation.ValidationFailsExactly | calculator.js:48-78 | Validation fails if and only if one of these holds: a required field is missing or all white space; the e-mail lacks the shape above; or a numeric field is not a non-negative number. |
| FieldValidation.NegativeGrowthRejected | calculator.js:69-75 | A negative growth rate fails validation. |

## Left out

- WordPress plumbing is not modelled: hooks, shortcodes, scripts and styles, the AJAX handler and its nonce check, the admin pages, table creation, and the CSV and PDF exports. None of it computes anything the projection depends on.
- `store_calculation`'s database insert and the visitor's IP address are not modelled. Only the integer it stores for the break-even month is (`StoredBreakEven`).
- Request sanitising (`sanitize_text_field`, `sanitize_email`, `floatval`) is not modelled. The engine starts from four numbers, the `Inputs` datatype.
- Floating point is not modelled. The engine works on exact reals: `pow`, `round` and the arithmetic of PHP doubles are exact here. A rounded column can then differ by a cent from what PHP prints, where the result depends on an IEEE rounding error (a value like x.xx5 that is not exactly representable). The strict test `$net_profit > 0` (profit-prediction-calculator.php:159) runs on a computed double. So the break-even month, and with it the stored column (profit-prediction-calculator.php:206), can differ when a month's exact net profit is 0 or within a rounding error of 0. For example, take investment 0.3, revenue 0.1, costs 0 and growth 0. In doubles, the running total after month 3 is 0.30000000000000004, above the double 0.3, so PHP reports break-even in month 3 (though its row shows 0.00). The model has an exact net profit of 0 in month 3 and reports month 4.
- NumberFormat.FormatNumber: the input is a whole number of cents, so the rounding of `toFixed(2)` on binary doubles is not modelled. Neither is its exponent form for magnitudes of 10²¹ and more.
- FieldValidation.ValidateRequiredFields: `parseFloat` is a parameter of the validator, with None for NaN. How it reads a prefix of the text, and `Infinity`, are not modelled.
- Strings are sequences of Unicode scalar values, not JavaScript's UTF-16 code units. The white-space set is JavaScript's `\s`.
- The front end's DOM handling, event wiring, debouncing, AJAX call, chart drawing and animated counters are not modelled. Nor is the e-mail field's blur handler at calculator.js:376-387, which only shows or hides a message with the same pattern.
- `formatNumber` drops the minus sign of a negative number. Only the net-profit cell of the table gets a CSS class for the sign (calculator.js:145, 153). The revenue, profit and cumulative cells (calculator.js:149-152), the chart labels (calculator.js:261, 274) and the animated counter (calculator.js:441) show a negative value with no sign at all. The model states this sign loss (`FormatNumberShape`) but not the page that shows it.
