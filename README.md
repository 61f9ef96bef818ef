# Salary tracker bot: ledger and message handler

The bot keeps a per-user ledger of salary, expense and savings transactions in
one SQLite table and answers free-text chat messages. This project models two
parts of it in Dafny:

- The ledger of `database.py` (module `Ledger`, file `ledger.dfy`).
  - The `transactions` table is a class `Database` holding the rows as a
    `seq<Row>` and the next auto-increment id.
  - `add_transaction` appends one row.
  - `get_today_report` and `get_month_report` each run their query in four steps.
    1. The `WHERE user_id = ? AND DATE(date) ...` filter is `Where`.
    2. The `GROUP BY type` fold with `SUM(amount)` and `COUNT(*)` is `GroupByType`.
    3. The `for row in results` loop is the method `TallyTotals`.
    4. The balance and the savings rate follow.
  - Each report method is proved equal to a function of the table
    (`DayReportOf`, `MonthReportOf`). Those functions are stated through plain
    sums and counts over the selected rows. Lemmas relate them to inserts, to
    other users and to types other than the three the loop picks out.
- The text-message handler `handle_message` of `bot.py` (module `Bot`, file `bot.dfy`).
  - The message is lower-cased and stripped (`Normalize`).
  - It is classified by the ordered prefix and substring tests (`Classify`).
  - The amount and note are cut out of it, and the two exception branches are
    modelled (`Interpret`, `ParseMessage`).
  - The resulting command is carried out on the ledger (`HandleMessage`).
- Three support modules.
  - `PyStr` (`text.dfy`) models the Python `str` operations the handler uses:
    `lower`, `strip`, `in`, `split(sep)[1]` and `split(None, 1)`.
  - `Amount` (`amount.dfy`) models `float()` on decimal literals.
  - `Wrappers` (`wrappers.dfy`) holds `Option`.

Modelling choices:

- Amounts are exact `real` numbers.
- Timestamps are integer seconds. `DATE(date)` is the day number `t / 86400`.
- The clock is a parameter.
  - `HandleMessage` receives the insert time `now`.
  - It also receives today's day number and the day number of the first of the month.
- Reports are structured values. `DayReport` and `MonthReport` are either the
  "no transactions" variant or the totals with the balance (and the savings rate).

## Model

| member | source | states |
|---|---|---|
| Ledger.DateOf | database.py:58 | `DATE(date)` is the day whose midnight is at or before the timestamp and whose next midnight is after it |
| Ledger.Database.constructor | database.py:24-40 | a freshly initialised table is empty and the first id is 1 |
| Ledger.Database.AddTransaction | database.py:42-48 | appends exactly one row, with the next id, the given user, type, amount and note (default `""`) and the current time; every earlier row is unchanged and ids stay strictly increasing |
| Ledger.Where | database.py:55-60 | the `WHERE user_id = ? AND DATE(date) ...` filter reads no more rows than the table has, and every row it reads passes the test (`WhereMembers` gives the converse) |
| Ledger.SumOf | database.py:56 | `SUM(amount)` over the rows of one type, 0 when there are none; its properties are stated by `SumAppend` and `NoRowsNoSum` |
| Ledger.CountOf | database.py:56 | `COUNT(*)` over the rows of one type is at most the number of rows |
| Ledger.AddToGroups | database.py:56-59 | one step of the `GROUP BY type` fold; `AddToExistingGroup` and `AddNewGroup` state what it keeps |
| Ledger.GroupByType | database.py:56-59 | the `GROUP BY type` result, one group per type in order of first appearance; `GroupByTypeSound` states that it is the SQL grouping |
| Ledger.WhereMembers | database.py:55-60 | a report query reads exactly the rows of that user that pass its date test |
| Ledger.OtherUsersInvisible | database.py:55-60 | a row of another user changes neither the today report nor the month report |
| Ledger.GroupByTypeSound | database.py:56-59 | the grouped result has one group per type that occurs, with that type's `SUM(amount)` and `COUNT(*)`; it is empty exactly when no row was read |
| Ledger.AddToExistingGroup | database.py:56-59 | folding a row into its type's existing group keeps the result the SQL grouping of the rows read so far |
| Ledger.AddNewGroup | database.py:56-59 | folding a row of a new type adds one group and keeps the result the SQL grouping |
| Ledger.TallyTotals | database.py:67-77 | the loop leaves in each accumulator the total (or count) of the last group of its type, and the initial 0 when there is none; other types are skipped |
| Ledger.LastIsTheGroup | database.py:70-77 | with one group per type, the loop's value for a type is that type's only group, or 0 when the type is absent |
| Ledger.TallyOfGroups | database.py:67-77 | over the grouped result, the loop yields the sum and the count of the rows read for each type |
| Ledger.SavingsRate | database.py:136 | the rate is 0 when the salary is 0 or negative, and otherwise satisfies rate × salary = savings × 100; no division by zero |
| Ledger.DayReportOf | database.py:50-92 | the today report is the "no transactions" variant exactly when the query reads no row, and otherwise its balance is salary − expenses − savings |
| Ledger.MonthReportOf | database.py:94-139 | the month report is the "no transactions" variant exactly when the query reads no row, and otherwise its balance is salary − expenses − savings and its rate the guarded savings rate |
| Ledger.Database.GetTodayReport | database.py:50-92 | the report is the "no transactions" variant when the user has no row dated today, and otherwise the salary, expense and savings totals, the expense count and balance = salary − expenses − savings of exactly those rows |
| Ledger.Database.GetMonthReport | database.py:94-139 | the same for the rows dated on or after the first day of the month, plus the guarded savings rate |
| Ledger.NoTransactionsTodayIff | database.py:55-65 | the today report is "no transactions" exactly when the user has no row dated today |
| Ledger.NoTransactionsThisMonthIff | database.py:100-110 | the month report is "no transactions" exactly when the user has no row dated on or after the first day, however much later |
| Ledger.RecordBumpsTotals | database.py:67-77 | one more selected row raises its own type's total by its amount (and the expense count by one) and changes nothing else |
| Ledger.ExpenseRaisesToday | database.py:42-77 | recording an expense of `a` dated today raises today's expense total by exactly `a`, the expense count by exactly 1, and leaves salary and savings as they were |
| Ledger.RecordShowsToday | database.py:55-77 | any row of the user dated today makes the today report a summary that includes it |
| Ledger.RecordShowsInMonth | database.py:100-122 | any row dated on or after the first of the month shows in the month report, whatever its date: the query has no upper bound |
| Ledger.OtherTypesIgnored | database.py:70-77 | rows of types other than salary, expense and savings add nothing to the totals |
| Ledger.OtherTypesOnlyDay | database.py:62-79 | when every row the today query reads for the user is of another type, the report is still a summary (the result is not empty), with all totals and the balance 0 |
| Ledger.DayCountWithinMonth | database.py:55-105 | when the first of the month is not after today, today's count of a type is at most the month's count |
| PyStr.IsSpace | bot.py:276 | Python's `str.isspace()` set, the whitespace `strip()` removes and `split()` splits at; `SpaceDef` states its members |
| PyStr.SpaceDef | bot.py:293 | a character is whitespace exactly when it is a space, one of `\t` to `\r`, one of U+001C to U+001F, U+0085, U+00A0, U+1680, one of U+2000 to U+200A, U+2028, U+2029, U+202F, U+205F or U+3000 |
| PyStr.LowerChar | bot.py:276 | `lower()` on one character: ASCII upper-case letters move by 32, every other character is kept, whitespace stays whitespace |
| PyStr.Lower | bot.py:276 | `lower()` keeps the length and lower-cases each character in place |
| PyStr.LowerIdempotent | bot.py:276 | lower-casing twice is lower-casing once |
| PyStr.TrimLeft | bot.py:276 | `lstrip()` leaves a suffix of the text that does not start with whitespace |
| PyStr.TrimRight | bot.py:276 | `rstrip()` leaves a prefix of the text that does not end with whitespace |
| PyStr.TrimLeftDropsSpace | bot.py:276 | what `lstrip()` drops is whitespace |
| PyStr.TrimRightDropsSpace | bot.py:276 | what `rstrip()` drops is whitespace |
| PyStr.Strip | bot.py:276 | the result of `strip()` neither starts nor ends with whitespace |
| PyStr.StripShape | bot.py:276 | `strip()` keeps one contiguous slice of the text and removes only whitespace before and after it |
| PyStr.StripEmptyIff | bot.py:276 | `strip()` leaves nothing exactly when the text is all whitespace |
| PyStr.StripPadded | bot.py:276 | whitespace around a text makes no difference to its `strip()` |
| PyStr.Contains | bot.py:319-337 | `p in s`: `FindFrom` finds an occurrence from index 0; `ContainsAt` turns any occurrence into `Contains` |
| PyStr.FindFrom | bot.py:319 | the leftmost occurrence of a substring at or after a position, or none at all |
| PyStr.SplitSecond | bot.py:281 | `split(prefix)[1]` on a text starting with the prefix: the text from the end of the prefix up to its next occurrence or the end, with no occurrence inside |
| PyStr.SegmentHasNoSep | bot.py:293 | the segment `split(sep)[1]` never contains `sep` |
| PyStr.SplitOnce | bot.py:293 | `split(None, 1)`: at most two parts, none exactly when the text is all whitespace; otherwise a first word without whitespace and, when more follows, a rest that is a suffix of the text and starts with non-whitespace |
| PyStr.SplitOnceShape | bot.py:293-294 | the first part is the word that starts after the leading whitespace, ending at whitespace or the end of the text; what follows it in the one-part case, and what lies between the parts in the two-part case, is whitespace |
| PyStr.SplitWordAndRest | bot.py:293-295 | `(w + " " + rest).split(None, 1)` is `[w, rest]` for a word `w` and a `rest` that starts with non-whitespace |
| PyStr.SplitWord | bot.py:293-295 | a single word splits into itself alone |
| Amount.IndexOf | bot.py:281 | the first position of a character, or none when it is absent |
| Amount.ParseAmount | bot.py:281 | the model's `float()` (decimal literals only) refuses the empty text and any text with a character other than a digit, a point or a sign; a negative value needs a leading `-` |
| Amount.ParseDecimal | bot.py:281 | `float(str(n)) == n` for every natural number |
| Amount.ParseSigned | bot.py:294 | a leading `-` or `+` is honoured, so negative amounts are read as they are |
| Amount.ParseWithCents | bot.py:308 | `float("n.cc") == n + cc/100` |
| Bot.Classify | bot.py:280-345 | the prefix tier in order: the salary branch exactly when the text starts with `salary credited`, the spend branch exactly when it starts with `spend` and not with the salary prefix, the savings branch exactly when it starts with `credit savings` and with neither earlier prefix; a report, statement or unknown branch exactly when no prefix matches |
| Bot.SubstringOrder | bot.py:318-354 | without a prefix: the today report exactly when `today report` occurs, the month report exactly when `month report` occurs and `today report` does not, the statement exactly when `statement` occurs and neither report phrase does, and unknown exactly when none of the three occurs |
| Bot.Interpret | bot.py:278-371 | the command each branch yields: a salary (savings) credit exactly when the salary (savings) branch is taken and `float` reads the amount; an expense exactly when the spend branch finds a first part that `float` reads; the generic failure exactly when the spend branch finds no parts; "Invalid Amount" exactly when `float` refuses the salary amount, the savings amount or the spend line's first part; the today report, month report, statement and unknown command exactly on their branches |
| Bot.Normalize | bot.py:276 | `text.lower().strip()`; `IgnoresCaseAndPadding` states what it makes irrelevant |
| Bot.AmountAfter | bot.py:281 | `float(text.split(prefix)[1].strip())`, as an option (`None` is the `ValueError`); `AmountAfterToken` and the round-trip lemmas state its value |
| Bot.SpendParts | bot.py:293 | `text.split('spend')[1].strip().split(None, 1)`; `SpendNote` and `SecondPartFreeOfSpend` state what its parts hold |
| Bot.ParseMessage | bot.py:276-345 | the command a raw message yields, through its normalized text; `Interpret` ties every command to its branch, `ReportMessages` states the report, statement and unknown commands on the raw message, and the round-trip and error lemmas below state particular write and error messages |
| Bot.RowFor | bot.py:282 | the row a write command records carries the next id, the user, the time and the command's amount; the type is `salary` exactly for a salary credit, `expense` exactly for a spend and `savings` exactly for a savings credit, and the note is the spend's note or `""` |
| Bot.IgnoresCaseAndPadding | bot.py:276 | surrounding whitespace and letter case make no difference to a message |
| Bot.PrefixesExclusive | bot.py:280-307 | no text starts with two of the three prefixes, so a `spend` or `credit savings` text always takes its own branch |
| Bot.StatementTestRedundant | bot.py:337 | `'mini statement' in text` implies `'statement' in text` |
| Bot.ReportMessages | bot.py:318-354 | a message asks for the today report exactly when its normalized text has no command prefix and holds `today report`; the month report, the statement and the unknown command likewise by the first phrase it holds, or none |
| Bot.ReportAnywhere | bot.py:319 | `today report` anywhere in a text without a command prefix selects the today report |
| Bot.SalaryRoundTrip | bot.py:280-282 | `salary credited <amount>` yields a salary command with `float` of the amount |
| Bot.SavingsRoundTrip | bot.py:307-309 | `credit savings <amount>` yields a savings command with `float` of the amount |
| Bot.SpendRoundTrip | bot.py:292-296 | `spend <amount> <note>` yields an expense of that amount carrying that note |
| Bot.SpendWithoutNote | bot.py:292-296 | `spend <amount>` alone yields an expense with the empty note |
| Bot.NegativeSpendRecorded | bot.py:294 | no positivity check: `spend -n` yields an expense of −n |
| Bot.BareSpendFails | bot.py:293-294 | `spend` followed by whitespace only gives an empty `parts`; indexing it drops into the generic-error branch |
| Bot.BareSalaryInvalid | bot.py:281 | `salary credited` alone hands `float` the empty string, which draws the "Invalid Amount" reply |
| Bot.InvalidSpendAmount | bot.py:292-294 | a spend line whose first part `float` refuses draws the "Invalid Amount" reply |
| Bot.NonNumericSpendInvalid | bot.py:292-294 | a first part holding an ASCII character that no `float()` literal contains (not a digit, letter, point, sign, `_` or whitespace; a comma, say) draws the "Invalid Amount" reply |
| Bot.SpendNote | bot.py:295 | an expense's note is the second part when there are two, and empty otherwise |
| Bot.NoteNeverHoldsSpend | bot.py:293-295 | the note stops before any later `spend`, so it never contains that word |
| Bot.SpendBeforeStatement | bot.py:280-345 | the first test wins: `spend 50 statement` is an expense of 50 noted `statement`, not a statement request |
| Bot.ReplyFor | bot.py:283-354 | the reply of each branch; the reports are taken from the table as it was |
| Bot.Dispatch | bot.py:280-345 | a salary, expense or savings command appends exactly its one row through `add_transaction`; reports, the statement, unknown text and both error branches leave the table as it was; the reply carries the report of the table as it was before |
| Bot.HandleMessage | bot.py:273-371 | the same, for the command the message text is classified as |

## Left out

- The Telegram side of `bot.py` is not part of this model: commands, keyboards, `button_handler`, `error_handler` and `main`. The reply texts are left out too; a reply is a structured `Reply` value.
- The SQLite connection handling (`get_connection`: commit, rollback, close) and the index DDL in `init_db` are left out. Each ledger call is an atomic update of the `seq<Row>`.
- A failure of the storage engine is not modelled. The generic-error branch is reached only from an empty `parts`.
- The clock is a parameter. `datetime.now()` is left out, and so is any disagreement between SQLite's UTC `CURRENT_TIMESTAMP` and the local `datetime.now()` date.
- Dates are compared as day numbers. They are not compared as the `YYYY-MM-DD` strings SQLite compares; for those strings the two orders agree.
- `strftime` and the `:,.2f` / `.1f` number formatting of the report and reply texts are left out.
- Amount.ParseAmount: covers only `float()` on plain decimal literals. It models an optional sign, digits and at most one point, and yields the exact decimal value. It does not model binary floating-point rounding, exponents, `inf`, `nan`, `_` separators or non-ASCII digits.
- Ledger.SavingsRate: is exact real arithmetic. It does not model floating-point rounding of `savings/salary*100` or of the sums.
- PyStr.Lower: lower-cases ASCII letters only. No other Unicode case mapping is modelled.
- PyStr.LowerChar: maps ASCII upper-case letters only, for the same reason as `PyStr.Lower`.
- The statement branch is left out. `get_mini_statement` is called at bot.py:338 but is not defined in database.py, so it is modelled as an opaque `StatementReply` that writes nothing. The `AttributeError` Python would raise there, which the generic-error branch would catch, is not modelled.
- The other undefined `Database` methods called from the button handlers are not part of this model: `get_daily_expenses`, `get_spending_analysis` and `reset_user_data`.
- Group order: SQLite does not promise an order for `GROUP BY type`. The model lists groups in order of first appearance. The totals do not depend on this, because each type has one group.
- Logging and the bot token lookup are left out.
- Bot.SpendRoundTrip: is stated for notes that are already lower-case, have no whitespace at either end and do not contain `spend`. For any other note, Python's `lower().strip()` and the cut at a later `spend` change what is stored. `NoteNeverHoldsSpend` and `SpendNote` state what holds for every message.
- Bot.SalaryRoundTrip: is stated for an amount token made of digits, points and signs, written after a single space. `IgnoresCaseAndPadding` adds case and surrounding whitespace.
- Bot.SavingsRoundTrip: is stated for an amount token made of digits, points and signs, written after `credit savings` and a single space; `IgnoresCaseAndPadding` adds case and surrounding whitespace.
- Bot.SpendWithoutNote: is stated for an amount token made of digits, points and signs, written after `spend` and a single space; `IgnoresCaseAndPadding` adds case and surrounding whitespace.
- No amount is checked for positivity: any value `float()` accepts, negative ones included, is stored as given. A salary is stored with the type `salary`.
- Bot.InvalidSpendAmount: its premise is the model's `float()`, not Python's. A first part such as `1e3`, `inf`, `nan` or `1_000` is refused by the model, so the model answers "Invalid Amount" where Python records the expense. Bot.BareSalaryInvalid and Bot.NonNumericSpendInvalid hold for Python too.
