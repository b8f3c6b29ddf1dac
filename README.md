# FIRE projection core in Dafny

This project models the arithmetic core of a personal retirement ("FIRE")
projection tool. The tool keeps a history of account balances and a schedule
of monthly cashflows. From the latest balances it projects every account
month by month:

- each month the balances grow;
- the cashflows active that month are added;
- from a withdrawal start month on, a withdrawal is recorded and every balance is scaled down;
- each month produces one row with the balances, their sum (net worth) and the withdrawal.

The model covers:

- **`project_balance`** (module `Engine`): one balance compounded monthly
  with a fixed contribution. The loop is a method. It is proved against a
  recursive specification and that specification against its closed form.
- **`projection_engine`** (module `ProjectionEngine`): the monthly loop with
  an assumptions record and inflation-adjusted ("real") columns. The loop is
  a method proved against a ghost specification `Run`. One month's
  transition is `Advance`, and it is shared with the script.
- **`projections.py`** (module `ProjectionScript`): the script's setup and
  its own loop. The setup picks the latest balance row, moves schedule
  starts to the next month, truncates ends to their month and chooses the
  month range. The loop has a growth factor of `1 + 0.10/12`, withdrawals of
  4% a year from November 2035, and the `1 - rate/12` withdrawal rule.
- **The input normalisers of `Balances_update.py`** (modules `Money`, `Dates`
  and `Text`):
  - `parse_money`, with its parenthesised negatives, `$`/comma/space
    separators and its number pattern;
  - the parsing half of `prompt_date` (`YYYY-MM`, `YYYY-MM-DD` and
    `M/D/YYYY`, rendered as the first of the month as `M/1/YYYY`);
  - `_normalize_date_str`.
- Shared vocabulary:
  - `Ledger`: balance vectors as `map<string, real>`, scaling, adding flows
    with a zero fill, and the sum;
  - `Cashflow`: active-entry selection and grouping by account;
  - `Calendar`: months as integers `year * 12 + (month - 1)`;
  - `Wrappers`: `Option` and `Result`.
  - `Sequences`: associativity of concatenation and splitting a sequence around a position, used by several proofs.

Amounts are exact reals. The source's fractional powers are parameters:
`(1 + 0.10) ** (1/12)`, `(1 - rate) ** (1/12)`, `(1 + inflation) ** (d/12)`,
and `(1 + annual_return) ** (1/12) - 1` in `project_balance`. The script's
own factors `1 + 0.10/12` and `1 - 0.04/12` are rational and are written out.

Notes on what the code does:

- `projection_engine` never reads `annual_return`: growth is the hard-coded
  `(1 + 0.10) ** (1/12)`. `ProjectionEngine.IgnoresAnnualReturn` proves the
  output does not depend on it.
- When the end month precedes the start month, `pd.date_range` is empty and
  the script produces no rows. No error is raised (`ProjectionScript.MonthRange`).
- An empty cashflow schedule leaves the end month `NaT`, and `pd.date_range`
  raises. The model returns `Failure(NoSchedule)` from `ProjectionScript.Prepare`.
- The real-value exponent uses `delta = basis - month`
  (`src/projection_engine.py:38`).
- In `projection_engine`, the recorded withdrawal is `sum * rate / 12`, but
  the balances are scaled by `(1 - rate) ** (1/12)`. The drop in net worth
  equals the recorded withdrawal exactly when that factor is `1 - rate/12`
  or the total is zero (`ProjectionEngine.AnnualRootDrop`). Under the
  script's rule they always agree (`ProjectionEngine.MonthlySliceDrop`).

## Model

| member | source | states |
|---|---|---|
| Ledger.Scale | src/projections.py:72 | multiplying a balance vector by a factor keeps its accounts and multiplies each balance by the factor |
| Ledger.Merge | src/projections.py:84 | adding the flows with `fill_value=0` gives the union of the accounts, each holding its balance plus its flow, a missing side counting as zero |
| Ledger.Total | src/projections.py:90 | the loop that sums the balances returns the net worth `Sum` |
| Ledger.SumScale | src/projections.py:72 | the net worth of a scaled vector is the net worth times the factor |
| Ledger.SumMerge | src/projections.py:84 | adding flows adds the flows' total to the net worth |
| Ledger.SumRemove | src/projections.py:90 | the sum is independent of the order in which accounts are taken: any account's balance plus the sum of the rest |
| Ledger.SumAt | src/projections.py:84 | the sum is any account's balance, zero when the account is missing, plus the sum of the other accounts |
| Calendar.MonthIndexRoundTrip | src/projections.py:37 | a month index determines its year and month (month-start timestamps and month indices correspond one to one) |
| Calendar.NextMonth | src/projections.py:37 | adding one month moves to the next calendar month, December rolling over to January of the next year |
| Calendar.ThirtyYears | src/projections.py:56 | thirty years after a month start is 360 months later |
| Cashflow.Select | src/projection_engine.py:24 | the selected entries are exactly the schedule entries active in the month |
| Cashflow.GroupSum | src/projection_engine.py:25 | grouping by account yields one total per account named by an entry, the sum of that account's amounts |
| Cashflow.FlowsSpec | src/projection_engine.py:24-25 | an account has a flow in a month iff some entry for it is active then, and the flow is the total of its active entries |
| Cashflow.NoActiveEntryNoFlow | src/projection_engine.py:24-25 | an account with no active entry contributes nothing in that month |
| Cashflow.InactiveEntryIgnored | src/projection_engine.py:24 | inserting an entry that is not active in a month anywhere in the schedule leaves that month's flows unchanged |
| Cashflow.ActiveEntryAdds | src/projection_engine.py:24-25 | appending an active entry adds its amount to its account's flow and changes no other account |
| Cashflow.TwoEntriesSum | src/projection_engine.py:25 | two active entries for the same account sum into one flow |
| Cashflow.SelectAppend | src/projection_engine.py:24 | selection distributes over concatenation of schedules and keeps order |
| Cashflow.GroupSumAppend | src/projection_engine.py:25 | grouping one more entry updates only its account's total |
| Cashflow.SelectTotal | src/projection_engine.py:24-25 | an account's total over the selected entries is its total over the active entries of the whole schedule |
| ProjectionEngine.Project | src/projection_engine.py:4-56 | the loop returns the rows of the specification `Run`: one per month, dated with it, net worth the sum of the row's balances |
| ProjectionEngine.RunShape | src/projection_engine.py:38-50 | every row is dated with its month, its net worth is its balances' sum, and the real columns are the nominal ones times the inflation factor for `basis - month` |
| ProjectionEngine.RunAt | src/projection_engine.py:19-53 | row `i` is the snapshot of the state after the first `i + 1` months |
| ProjectionEngine.RunStep | src/projection_engine.py:19-53 | each row is the previous row's state advanced by one month |
| ProjectionEngine.StateAfterStep | src/projection_engine.py:19 | the state after `n + 1` months is the state after `n` advanced by month `n` |
| ProjectionEngine.SnapshotShape | src/projection_engine.py:38-50 | a row carries the month, the balances' sum, and the real values of net worth and withdrawal |
| ProjectionEngine.BasisMonth | src/projection_engine.py:38-40 | in the basis month the real values equal the nominal ones |
| ProjectionEngine.AdvanceAccounts | src/projection_engine.py:21-35 | one month: accounts are the old ones plus those with flows; an old balance becomes balance × growth × (withdrawal factor in withdrawal months) + its flow; a new account holds its flow; the withdrawal is set only from the start month on |
| ProjectionEngine.AdvanceBalances | src/projection_engine.py:21-35 | one month's balances are the grown, possibly scaled-down balances merged with the month's flows |
| ProjectionEngine.StateAfterBeforeStart | src/projection_engine.py:8-29 | while no month has reached the withdrawal start, the carried withdrawal is unchanged |
| ProjectionEngine.WithdrawalBeforeStart | src/projection_engine.py:8-29 | with ascending months, every row before the withdrawal start records a zero withdrawal |
| ProjectionEngine.WithdrawalMonth | src/projection_engine.py:28-35 | in a withdrawal month the withdrawal is the grown total × rate / 12 and the balances are the grown ones scaled by the retained factor plus the flows |
| ProjectionEngine.WithdrawKeepsShares | src/projection_engine.py:30 | scaling every balance by one factor keeps each account's share of the total |
| ProjectionEngine.AnnualRootDrop | src/projection_engine.py:29-30 | under the `(1 - rate) ** (1/12)` rule, net worth drops by exactly the recorded withdrawal iff the factor is `1 - rate/12` or the total is zero |
| ProjectionEngine.RootTotal | src/projection_engine.py:29-30 | the same equivalence stated on the grown vector directly |
| ProjectionEngine.MonthlySliceDrop | src/projections.py:79-80 | under the `1 - rate/12` rule, net worth drops by exactly the recorded withdrawal |
| ProjectionEngine.SliceTotal | src/projections.py:79-80 | the total after scaling by `1 - rate/12` is the grown total minus `total × rate / 12` |
| ProjectionEngine.IgnoresAnnualReturn | src/projection_engine.py:10-21 | the rows do not depend on the assumptions' annual return |
| Engine.ProjectBalance | src/engine.py:1-18 | returns `months + 1` balances (one for a non-positive count), the first the start balance, the `k`-th the balance after `k` months |
| Engine.ClosedForm | src/engine.py:8-16 | the balance after `k` months is `start × (1+r)^k + c × (1 + (1+r) + … + (1+r)^(k-1))` |
| Engine.NoContribution | src/engine.py:8-16 | without contributions the balance is `start × (1+r)^k` |
| Engine.NonNegativeAndGrowing | src/engine.py:14-16 | with non-negative start, contribution and rate, balances are non-negative and never fall from one month to the next |
| Engine.Monotone | src/engine.py:14-16 | under the same conditions a later balance is at least any earlier one |
| Text.TrimStart | src/Balances_update.py:41 | removing leading whitespace leaves a string that does not start with whitespace and is no longer |
| Text.TrimEnd | src/Balances_update.py:41 | removing trailing whitespace leaves a string that does not end with whitespace and is no longer |
| Text.StripSpec | src/Balances_update.py:41 | `strip()` returns the slice of the input between a whitespace prefix and a whitespace suffix, and that slice neither starts nor ends with whitespace |
| Text.StripUnchanged | src/Balances_update.py:41 | a string that neither starts nor ends with whitespace is its own strip |
| Text.StripIdempotent | src/Balances_update.py:41 | stripping twice is stripping once |
| Text.StripEmpty | src/Balances_update.py:41-43 | the stripped string is empty iff the input is all whitespace |
| Text.ShowNat | src/Balances_update.py:102 | the decimal text of a number is non-empty digits with no leading zero (except for zero) |
| Text.NatValueShowNat | src/Balances_update.py:102 | reading back the decimal text of a number gives the number |
| Text.ShowNatNatValue | src/Balances_update.py:102 | writing the value of a digit string without leading zeros gives the string back |
| Text.ShowNatFour | src/Balances_update.py:102 | a number is written with four digits iff it is between 1000 and 9999 |
| Money.ParenInner | src/Balances_update.py:46 | the parenthesis pattern matches only a string that is `(`, the captured text and `)`, optionally followed by one newline; the captured text holds no newline |
| Money.Clean | src/Balances_update.py:51 | removing `$`, `,` and space keeps only characters of the input and none of those three |
| Money.CleanAppend | src/Balances_update.py:51 | removing separators works piecewise over concatenation |
| Money.CleanKeeps | src/Balances_update.py:51 | text without separators is unchanged |
| Money.CleanInsert | src/Balances_update.py:51 | inserting a separator anywhere does not change the cleaned text |
| Money.RejectsBlank | src/Balances_update.py:41-43 | the "Empty input" error happens iff the input is all whitespace |
| Money.AcceptsExactly | src/Balances_update.py:41-57 | a value is returned iff the stripped input is non-empty and, after the parenthesis rewrite and separator removal, matches `-?digits(.digits)?` |
| Money.PlainRead | src/Balances_update.py:41-57 | stripped text not starting with `(` is read by removing separators and matching the number pattern |
| Money.ParenRewrite | src/Balances_update.py:46-51 | `(t)` is read as `-t` with separators removed |
| Money.ParenNegates | src/Balances_update.py:45-48 | wrapping an accepted amount without a minus sign in parentheses negates it |
| Money.RejectsParenNegative | src/Balances_update.py:46-55 | a parenthesised amount that already carries a minus is rejected with its double-minus text |
| Money.SeparatorIgnored | src/Balances_update.py:50-51 | inserting a `$`, comma or space between two non-empty parts, the first not starting and the second not ending with whitespace, never changes the outcome |
| Money.ParseDecimalMatches | src/Balances_update.py:54-57 | the converter returns a value iff its input matches the number pattern |
| Money.UnsignedScan | src/Balances_update.py:54 | an unsigned number is non-empty digits, optionally a dot and non-empty digits |
| Money.ParseDigits | src/Balances_update.py:54-57 | a digit string (optionally after `-`) reads as its decimal value (negated) |
| Money.ParseShowNat | src/Balances_update.py:54-57 | the decimal text of any whole number (optionally after `-`) reads back as that number (negated) |
| Money.ParseFraction | src/Balances_update.py:54-57 | `ip.fp` reads as integer part plus fraction part over its power of ten, and `-ip.fp` as its negation |
| Money.RejectsLeadingDot | src/Balances_update.py:54 | text starting with a dot is rejected |
| Money.RejectsTrailingDot | src/Balances_update.py:54 | digits followed by a dot with no fraction digits are rejected |
| Money.AcceptedCharacters | src/Balances_update.py:54 | accepted text holds only digits, dots and minus signs, plus at most a final newline |
| Dates.ParseEither | src/Balances_update.py:87-93 | a date read by either format is a valid calendar date |
| Dates.IsoReads | src/Balances_update.py:88-90 | `YYYY-M-D` with valid tokens reads as the date those tokens denote |
| Dates.UsReads | src/Balances_update.py:88-90 | `M/D/YYYY` with valid tokens reads as the date those tokens denote |
| Dates.IsoShape | src/Balances_update.py:88-90 | conversely, every text `%Y-%m-%d` accepts is a year, a month and a day token joined by `-`, read as the date they name |
| Dates.UsShape | src/Balances_update.py:88-90 | conversely, every text `%m/%d/%Y` accepts is a month, a day and a year token joined by `/`, read as the date they name |
| Dates.FirstOfMonthValid | src/Balances_update.py:101 | the first of any month of years 1 to 9999 is a valid date |
| Dates.RenderReadsBack | src/Balances_update.py:101-102 | the `M/1/YYYY` output is already stripped, is not `YYYY-MM`, and reads back as the first of its month exactly when the year has four digits |
| Dates.PromptDateBlank | src/Balances_update.py:71-80 | blank input gives the first of today's month as `M/1/YYYY` |
| Dates.PromptDateRejects | src/Balances_update.py:79-98 | the error is raised iff the input is not blank and, after the `YYYY-MM` extension, neither format reads it |
| Dates.PromptDateOutput | src/Balances_update.py:82-102 | every output is kept by the normaliser, and an output that reads back is the first of a month and is accepted as its own answer |
| Dates.YearMonthIsFirstDay | src/Balances_update.py:83-84 | `YYYY-MM` is answered exactly like `YYYY-MM-01` |
| Dates.NormalizeKeepsRender | src/Balances_update.py:112-123 | the normaliser keeps every `M/1/YYYY` string it can produce |
| Dates.NormalizeIdempotent | src/Balances_update.py:112-123 | normalising twice is normalising once |
| Dates.NormalizeBlank | src/Balances_update.py:113-115 | a missing or all-whitespace value normalises to the empty string, and only those do |
| Dates.NormalizeUnknown | src/Balances_update.py:123 | a value neither format reads is returned stripped |
| Dates.PromptAgreesWithNormalize | src/Balances_update.py:82-123 | for input that is not `YYYY-MM` and that a format reads, the prompt's answer is the normaliser's output |
| ProjectionScript.Latest | src/projections.py:32-33 | no row exists iff the history is empty; otherwise the chosen row is in the history and no row sorts after it, a blank date (`NaT`) sorting after every date |
| ProjectionScript.LatestUndated | src/projections.py:31-33 | the row taken as the latest has a blank date exactly when some row of the history has one |
| ProjectionScript.StartAfterHistory | src/projections.py:37 | for a history whose dates are all filled, the first projected month is after every balance month and is the month right after one of them |
| ProjectionScript.StartBalances | src/projections.py:39-40 | one starting balance per account column, the latest row's cell or zero when it is empty |
| ProjectionScript.NormalizeSchedule | src/projections.py:46-49 | every schedule row is normalised, in order |
| ProjectionScript.EntryWindow | src/projections.py:46-47 | a normalised entry is active from the month after its start date's month to its end date's month inclusive, forever without an end date, and never without a start date (`NaT`) |
| ProjectionScript.SameMonthEntryInactive | src/projections.py:46-47 | an entry starting and ending in the same month is never active |
| ProjectionScript.MaxEnd | src/projections.py:52 | the latest end month bounds every end month and is one of them |
| ProjectionScript.EndMonth | src/projections.py:51-59 | 360 months after the start when some entry has no end date; otherwise the latest end month; none for an empty schedule |
| ProjectionScript.MonthRange | src/projections.py:61 | the range has `end - start + 1` months (none when end < start), the `i`-th being `start + i` |
| ProjectionScript.MonthRangeMembers | src/projections.py:61 | the range is strictly ascending and holds exactly the months from start to end |
| ProjectionScript.PrepareRange | src/projections.py:31-61 | setup fails iff the history is empty, a history date is blank or the schedule is empty, naming the first of these; otherwise the start balances are the latest row's account cells, and the months start after the latest balance month and run 361 months with an open-ended entry, else up to the latest end month of the schedule |
| ProjectionScript.ProjectNominal | src/projections.py:63-94 | the loop returns the rows of `ScriptRun`: one per month, dated with it, net worth the sum of its balances |
| ProjectionScript.ScriptAdvance | src/projections.py:72-84 | one month under the script's constants: grow by `1 + 0.10/12`, from November 2035 record `total × 0.04/12` and scale by `1 - 0.04/12`, then add the flows |
| ProjectionScript.ScriptRunShape | src/projections.py:86-94 | one row per month, in order, dated with it, net worth the sum of its balances |
| ProjectionScript.ScriptRunAt | src/projections.py:70-94 | row `i` holds the state after the first `i + 1` months |
| ProjectionScript.ScriptRunStep | src/projections.py:70-94 | each row is the previous row's state advanced by its month |
| ProjectionScript.NoWithdrawalBeforeTrigger | src/projections.py:67-78 | with ascending months every row before November 2035 records a zero withdrawal |
| ProjectionScript.WithdrawalMonthDrop | src/projections.py:78-84 | from November 2035 the withdrawal is the grown total × 0.04/12, the balances are the grown ones × (1 - 0.04/12) plus flows, and net worth is the grown net worth minus the withdrawal plus the flows |
| ProjectionScript.GrowthMonth | src/projections.py:72-84 | before November 2035 the balances only grow and receive flows, the withdrawal carries over, and net worth is the previous one × (1 + 0.10/12) plus the flows |
| ProjectionScript.GrowthOnly | src/projections.py:72-84 | the same for one month from any state |
| ProjectionScript.ScriptOverRange | src/projections.py:37-94 | over the prepared range, row `i` is dated `start + i` and records no withdrawal before November 2035 |

## Left out

- Floating point: amounts are exact reals, so rounding in `float(s)`, in the
  repeated multiplications and in `balances.sum()` is not modelled.
- The fractional powers `(1+0.10)**(1/12)`, `(1-rate)**(1/12)`,
  `(1+inflation)**(d/12)` and `(1+annual_return)**(1/12)-1` are parameters,
  not computed.
- The `Age` column and the `birthday` assumption: they need day counts
  divided by 365.2425.
- The `Date` column of the history and the schedule's date cells are taken
  as already parsed. `pd.to_datetime` on arbitrary text and times of day are
  not modelled. A blank history date is modelled: it becomes `NaT`, sorts
  last, is picked as the latest row, and the setup fails
  (`ProjectionScript.Prepare` returns `Failure(UndatedBalance)`, where the
  source's `pd.date_range` raises).
- A non-blank start date or amount in the schedule that cannot be read
  raises in the source; the model takes the schedule rows as already read.
  A blank start date is modelled: it becomes `NaT`, the entry is never
  active, and its end date still takes part in choosing the end month.
- ProjectionEngine.Assumptions: `withdrawal_start_date` may be any
  timestamp. The model holds it as a month index, the first month whose
  first day is on or after that timestamp. A date in the middle of a month
  therefore takes effect from the next month, as the source's comparison
  on month starts does. The timestamp itself is not modelled.
- An account column named `Net_Worth` or `Withdrawal` would clash with the
  row's own keys; pandas column order and the CSV layout are not modelled.
- A missing account name becomes the text `"nan"` in the source
  (`astype(str)`). Account names are plain strings here.
- ProjectionScript.Latest: among rows with the same latest date it picks the
  last one in file order. `sort_values` uses an unstable sort, so the
  source's choice among equal dates is not modelled.
- Money and Dates: `\d` in Python's patterns and the numeric fields of
  `strptime` accept every Unicode decimal digit. In the model, ASCII digits
  only are accepted by the money pattern, by the `YYYY-MM` pattern of
  `prompt_date`, and by the `%Y`/`%m`/`%d` fields that `prompt_date` and
  `_normalize_date_str` read.
- Dates.RenderReadsBack: an output with a year below 1000 is written with
  fewer than four digits, and it is stated not to read back. The source
  writes such years the same way.
- I/O is not modelled: `input()`, the re-prompt loops, `get_csv_path`,
  reading and writing CSV files, and `date.today()` (which becomes the
  parameter `today`). The same goes for `prompt_balances`, `append_row`,
  `read_existing_dates` (beyond `_normalize_date_str`), plotting and the
  driver scripts.
- Concrete examples such as `parse_money("(1,234.56)") == -1234.56` are not
  stated literally. They follow from `Money.ParenRewrite`,
  `Money.SeparatorIgnored` and `Money.ParseFraction`.
