# SeQura disbursement engine in Dafny

This project models the disbursement engine of the SeQura service. The
service pays each merchant, per week and year, the orders it completed
in the week before, each order increased by a tiered fee. The model
covers two source files: `sequra/database/models.py` and
`sequra/api/resource/disbursement.py`. It is split into five modules:

- `decimals.dfy` (module `Decimals`) models amounts. Both amount columns
  are text: the setter stores `str(amount)` and the getter reads
  `Decimal(text)` back. The module defines a finite decimal (sign,
  coefficient, exponent), the text `str` writes for it, and a scan of
  that text as `Decimal(text)` reads it. It proves that the text reads
  back as the same decimal.
- `calendar.dfy` (module `Calendar`) models dates: the proleptic
  Gregorian ordinal, weekday and day of the year of `datetime.date`,
  and Python's `isocalendar`. It also defines the `%W` week number that
  `extract('week', ...)` yields on SQLite: weeks start on Monday, and
  the days before the year's first Monday are week 0.
- `fees.dfy` (module `Fees`) models the fee schedule:
  - the three rates, which are the exact binary doubles that
    `Decimal(0.01)`, `Decimal(0.0095)` and `Decimal(0.0085)` denote;
  - the unrounded running total of amount plus fee;
  - the final ROUND_HALF_UP quantization to cents;
  - the values the unit tests fix.
- `models.dfy` (module `Models`) models the persistent part:
  - merchants and orders;
  - the period selector `Order.amounts_by_merchant_in_week`;
  - the fee loop `Disbursement.calculate_amount`, as a method with a loop
    proved against `Fees.DisbursedAmount`;
  - the `Disbursement` object, a class with `save` and the amount
    property;
  - the database, a class whose disbursement table is recomputed by the
    after-insert hook. The hook writes the key's amount into every row
    of the same (merchant, week, year).
- `api.dfy` (module `Api`) models the two GET resources:
  - the query schemas;
  - `weeks_for_year`;
  - the guards and the save of `/calculate_disbursement`, as a method on
    the database;
  - the read path of `/disbursement`, as a function, with lemmas for each
    of its outcomes;
  - the integration scenario (calculate week 1 of 2020, then read 1.01)
    as a method that runs both requests on a fresh database.

Responses are modelled by outcome: `Created(id)` (201), `Listing` and
`Single` (200), `BadRequest` (400), `NotFound` (404, the `NoResultFound`
handler in `sequra/api/restx.py`) and `ServerError` (500, the default
handler, which catches `MultipleResultsFound` and a failing `Decimal`).

Some behaviour of the code is easy to misread, and the model states it
as the code has it:

- **Order selection uses `%W` weeks; the guard counts ISO weeks.** The
  selector compares `extract('week', completed_at)` with `week - 1`
  (`sequra/database/models.py:108-109`). On SQLite that is the `%W`
  week, which has a week 0. The calculation guard instead bounds `week` by
  the ISO week of 28 December (`sequra/api/resource/disbursement.py:57-60`).
  An order completed on 1 January 2020 funds week 1 of 2020
  (`Api.NewYear2020OrderFundsWeekOne`). An order completed on
  27 December 2021 is in `%W` week 52, so only week 53 of 2021 would
  select it. The guard refuses week 53 because 2021 has 52 ISO weeks, so
  that order is never disbursed (`Api.LateDecember2021OrderNeverDisbursed`).
- **Listing order.** The all-merchants query
  (`sequra/api/resource/disbursement.py:78-80`) has no ORDER BY. The
  model lists rows in store order (`Api.ListedRowsAppend`).
- **Unknown merchant on calculation.** The resource declares a 400 for
  "Merchant not found" (`sequra/api/resource/disbursement.py:36`). In
  fact `.one()` raises `NoResultFound`, which the API's handler turns into
  a 404, and the model answers 404.
- **No uniqueness per (merchant, week, year).** The `UniqueConstraint` at
  `sequra/database/models.py:25` names `week` twice and is never attached
  to the table, so nothing enforces uniqueness. Each accepted calculation
  adds one more row of its key (`Models.InsertAddsOneRowOfItsKey`). A
  named read of a duplicated key then fails with 500
  (`Api.ReadKnownMerchant`).
- **The fee rates are binary doubles.** The rates at
  `sequra/database/models.py:55-60` are built as `Decimal(<float literal>)`,
  so the middle rate is slightly less than 0.0095. This is why 50.00 is
  disbursed 50.47, which the unit test records
  (`Fees.FiftyAtLowerBoundOfMiddleTier`).
- **The null-date filter is inert.** The filter
  `Order.completed_at is not None` (`sequra/database/models.py:107`) is a
  Python constant `True` and filters nothing. An order without a
  completion date drops out only because NULL never compares equal;
  `Models.Funds` states that outcome.

## Model

| member | source | states |
|---|---|---|
| Decimals.ParseToString | sequra/database/models.py:27-35 | Reading back the text the amount setter stores (`str(amount)`) gives the same decimal (same sign, coefficient and exponent), so a text column stores amounts faithfully |
| Calendar.WeekW | sequra/database/models.py:108-109 | The week `extract('week', completed_at)` yields on SQLite is between 0 and 53 |
| Calendar.PercentWFirstDay | sequra/database/models.py:109 | The year's first day is in `%W` week 1 when it is a Monday and in week 0 otherwise |
| Calendar.PercentWNextDay | sequra/database/models.py:109 | From one day to the next, the `%W` week grows by exactly one when the new day is a Monday and stays the same otherwise |
| Calendar.NextDayOfYear | sequra/database/models.py:109 | Consecutive dates of a year have consecutive days of the year and consecutive weekdays (modulo 7), which ties `%W` to the calendar |
| Calendar.YearLength | sequra/api/resource/disbursement.py:57-60 | A year has 366 days when it is a leap year and 365 otherwise, as the ordinal counts them |
| Calendar.IsoWeekOfDecember28 | sequra/api/resource/disbursement.py:57-60 | 28 December belongs to its own ISO year. Its ISO week is 53 exactly when 1 January is a Thursday, or a Wednesday in a leap year, and 52 otherwise |
| Calendar.NewYear2020 | sequra/tests/integration/test_disbursement.py:27-29 | 1 January 2020 is a valid date, a Wednesday, in `%W` week 0 |
| Calendar.LateDecember2021 | sequra/api/resource/disbursement.py:48-49 | 27 December 2021 is a Monday, the first day of `%W` week 52 |
| Fees.FeeRate | sequra/database/models.py:55-60 | The rate is the small-order rate exactly when the amount is under 50, the middle rate exactly when it is from 50 up to (not including) 300, and the large-order rate exactly when it is 300 or more; every rate lies between the large and the small rate |
| Fees.ContributionByTier | sequra/database/models.py:55-60 | Each branch of the loop adds the amount plus its tier's fee, and this equals the order's contribution on any running total |
| Fees.DisbursedAmount | sequra/database/models.py:50-62 | The disbursed amount of a run of orders is in cents, has the sign of the running total, and its cent count lies within half a cent of the total's magnitude, ties going up |
| Fees.Quantize | sequra/database/models.py:62 | The quantized total has exponent -2 and is negative exactly when the total is |
| Fees.QuantizeIsNearestCent | sequra/database/models.py:62 | A whole number of cents is the quantized coefficient exactly when it lies within half a cent of the total's magnitude, ties going up. This characterizes ROUND_HALF_UP independently of the body |
| Fees.QuantizeValue | sequra/database/models.py:62 | The quantized decimal stands for its coefficient in cents, with the sign of the total |
| Fees.RawTotalAppend | sequra/database/models.py:52-60 | The running total of two runs of orders is the sum of their totals |
| Fees.RawTotalStep | sequra/database/models.py:53-60 | Taking one more order adds exactly that order's contribution to the running total |
| Fees.RawTotalPermutation | sequra/database/models.py:53-62 | Any reordering of the same amounts gives the same total and the same disbursed amount; the selection query has no ORDER BY |
| Fees.FeeBounds | sequra/database/models.py:53-60 | For non-negative orders the gross amount is non-negative and the running total lies between 1.0085 and 1.0101 times it |
| Fees.ContributionBounds | sequra/database/models.py:55-60 | A non-negative order contributes between 1.0085 and 1.0101 times its amount |
| Fees.NonNegativeDisbursement | sequra/database/models.py:62 | Non-negative orders are disbursed a non-negative whole number of cents |
| Fees.EmptyWeek | sequra/database/models.py:52 | A week with no orders is disbursed 0.00 |
| Fees.OneUnit | sequra/tests/test_models.py:10-17 | An order of 1 is disbursed 1.01 |
| Fees.NinetyNineCents | sequra/tests/test_models.py:19-26 | An order of 0.99 is disbursed 1.00 |
| Fees.OneCent | sequra/tests/test_models.py:28-35 | An order of 0.01 is disbursed 0.01 |
| Fees.FiftyAtLowerBoundOfMiddleTier | sequra/tests/test_models.py:37-44 | 50.00 is charged the middle rate, which is below 0.95%, so it is disbursed 50.47 |
| Fees.FiftyAndOneCent | sequra/tests/test_models.py:46-53 | An order of 50.01 is disbursed 50.49 |
| Fees.OneThousand | sequra/tests/test_models.py:55-62 | An order of 1000 is disbursed 1008.50 |
| Fees.TwoCents | sequra/tests/test_models.py:64-71 | Two orders of 0.01 are disbursed 0.02 |
| Fees.OneHundred | sequra/tests/test_models.py:73-80 | An order of 100.00 is disbursed 100.95 |
| Fees.ThreeHundredAtLowerBoundOfTopTier | sequra/database/models.py:57-60 | 300 is in the top tier and 299.99 is not; an order of 300 is disbursed 302.55 |
| Fees.RoundedOnceAtTheEnd | sequra/database/models.py:53-62 | Only the total is rounded: one order of 0.004 is disbursed 0.00, two are disbursed 0.01 |
| Models.ColumnAmount | sequra/database/models.py:27-31 | The amount getter of a disbursement (and of an order) gives nothing for a null column and reads back every text that `str(amount)` writes as that amount |
| Models.OrderAmount | sequra/database/models.py:92-96 | The order amount getter reads back every text that `str(amount)` writes as that amount |
| Models.SetOrderAmount | sequra/database/models.py:92-100 | After the order amount setter, the getter returns the amount set; id, merchant and completion date are unchanged |
| Models.SelectedOrders | sequra/database/models.py:106-110 | An order is selected exactly when it belongs to the merchant, the merchant exists, and it was completed in the year and in the `%W` week before the requested one; a selected order appears as many times as it is stored, so equal orders are each summed |
| Models.ReadAmounts | sequra/database/models.py:111 | The amounts are read exactly when every selected amount text parses, and then they are the selected orders' amounts, one for one, in order |
| Models.SelectionDistinct | sequra/database/models.py:85 | With order ids a primary key, no order appears twice in the selection, so no order is paid twice |
| Models.AmountsByMerchantInWeek | sequra/database/models.py:103-111 | The selector yields amounts exactly when every order funding the key has an amount text that parses, and then one amount per selected order, in order |
| Models.WeekAmount | sequra/database/models.py:67 | When every order amount parses, the hook's amount exists, is in cents, has the sign of the running total of the selected amounts and lies within half a cent of it; a key no order funds gets 0.00 |
| Models.CalculateAmount | sequra/database/models.py:49-62 | The loop yields a value exactly when the selection is readable. That value is the disbursed amount of the selected amounts: the sum of each amount plus its tier's fee, rounded half up to cents once at the end |
| Models.Restamp | sequra/database/models.py:69-74 | The hook's UPDATE keeps the number of rows; every row of the key receives the new amount text, every other row is unchanged, and all ids and keys are kept |
| Models.AfterInsert | sequra/database/models.py:65-74 | Insert and hook add one row, last, with the inserted id and key, and leave every row of another key as it was |
| Models.AfterInsertStamps | sequra/database/models.py:65-74 | After an insert the new row is last and has its key. Every row of that key reads back the amount computed from the orders; every other row is unchanged; all ids and keys are kept |
| Models.RestampKeyCount | sequra/database/models.py:69-74 | The hook's UPDATE keeps the number of rows of every key |
| Models.InsertAddsOneRowOfItsKey | sequra/database/models.py:22-25 | Inserting a row adds one row of its own key, even when that key is already present, and leaves every other key's count as it was |
| Models.AfterInsertValid | sequra/database/models.py:65-74 | After insert and hook, ids still increase and every stored amount parses |
| Models.AppendIdsIncreasing | sequra/database/models.py:17 | A row given the next id keeps the ids positive and increasing |
| Models.Disbursement.Blank | sequra/api/resource/disbursement.py:51 | `Disbursement()` starts with every column unset |
| Models.Disbursement.constructor | sequra/database/models.py:33-35 | A disbursement built with an amount reads that amount back, with the given week, year and merchant, and no id yet |
| Models.Disbursement.SetAmount | sequra/database/models.py:33-35 | The setter stores `str(amount)`, the getter reads the amount back, and the key columns are unchanged |
| Models.Disbursement.Save | sequra/database/models.py:37-44 | `save` sets merchant, week and year from its arguments and gives the object the next id. The table becomes the old one with this row inserted and the hook applied; merchants and orders are unchanged |
| Models.Database.constructor | sequra/tests/integration/test_disbursement.py:19-20 | A freshly created schema has empty tables and is well formed |
| Models.Database.AddMerchant | sequra/database/models.py:77-81 | A merchant is added exactly when its id is not taken (the primary key); nothing else changes |
| Models.Database.AddOrder | sequra/database/models.py:84-100 | An order is added exactly when its id is not taken (the primary key), with its amount stored through the setter, so it reads back as given; nothing else changes |
| Models.Database.Insert | sequra/database/models.py:65-74 | The flush appends the row under the next id and runs the hook; the table keeps its invariants |
| Models.Database.OnInsert | sequra/database/models.py:65-74 | The hook writes the key's amount, as computed from the orders, into every row of the key and leaves all other rows as they were |
| Api.Status | sequra/api/restx.py:12-23 | A status is a success exactly for a creation or a read, a client error exactly for the two refusals (a bad query and a missing row), and a server error exactly for an unhandled exception |
| Api.CalculationQueryValid | sequra/api/resource/disbursement.py:18-29 | The calculation schema accepts a query exactly when the read schema does and a merchant name is given |
| Api.ReadQueryValid | sequra/api/resource/disbursement.py:25-29 | A query the read schema accepts has a week from 1 to 53 and a year from 1980 to 3000 |
| Api.Accepted | sequra/api/resource/disbursement.py:41-49 | A calculation query passes both 400 guards exactly when the schema accepts it and its week is at most 52, or is 53 in an ISO long year |
| Api.WeeksForYear | sequra/api/resource/disbursement.py:57-60 | `weeks_for_year` is 52 or 53, and 53 exactly in ISO long years |
| Api.WeeksIn2020And2021 | sequra/api/resource/disbursement.py:57-60 | 2020 has 53 ISO weeks and 2021 has 52 |
| Api.NewYear2020OrderFundsWeekOne | sequra/database/models.py:106-110 | An order completed on 1 January 2020 funds week 1 of 2020 and no other week of that year |
| Api.LateDecember2021OrderNeverDisbursed | sequra/api/resource/disbursement.py:48-49 | An order completed on 27 December 2021 funds no week and year that the guards accept |
| Api.MerchantsNamed | sequra/api/resource/disbursement.py:52 | The name lookup returns exactly the merchants with that name, each as many times as it is stored, so its length is the number of matches `.one()` sees |
| Api.MerchantName | sequra/database/models.py:46-47 | A row's merchant name exists exactly when a merchant has its id, and it is the name of such a merchant |
| Api.MerchantNameOf | sequra/database/models.py:24 | With distinct merchant ids, a merchant's id leads back to its own name |
| Api.CheckCalculation | sequra/api/resource/disbursement.py:41-52 | A 400 exactly when the schema or the week guard fails. Otherwise a 404 exactly when no merchant has the name, a 500 exactly when several do, and proceeding exactly when one does, with that merchant, week and year |
| Api.RequestCalculation | sequra/api/resource/disbursement.py:40-55 | A rejected request answers the guard's response and leaves the table unchanged. An accepted one answers 201 with the next id, and the table becomes the old one with a blank row of the key inserted and the hook applied, holding one more row of that key |
| Api.ListedRows | sequra/api/resource/disbursement.py:78-80 | A row is listed exactly when it has the week and year and its merchant exists, as many times as it is stored |
| Api.ListedRowsAppend | sequra/api/resource/disbursement.py:78-81 | The listing keeps store order: the listing of a table grown by some rows is the old listing followed by the listing of the new rows |
| Api.ListedRowsSingle | sequra/api/resource/disbursement.py:78-80 | A single row is listed exactly when it has the week and year and its merchant exists |
| Api.RowsOfKey | sequra/api/resource/disbursement.py:86-89 | A row is returned exactly when it has the key, and there are as many as the key's row count |
| Api.AsItemRenders | sequra/database/models.py:46-47 | `asdict` renders a row exactly when its amount reads and a merchant has its id; the item carries that amount, the row's week and year, and that merchant's name |
| Api.Items | sequra/api/resource/disbursement.py:81 | The rows render exactly when each row renders, and then the items are the rendered rows, one for one, in order |
| Api.Read | sequra/api/resource/disbursement.py:70-90 | The read answers 400 exactly for a query the schema refuses, and 500 for a name that several merchants have (`.scalar()` calls `.one()`); the other outcomes are stated by the four lemmas that follow |
| Api.ListedRowsRender | sequra/api/resource/disbursement.py:78-81 | When every stored amount reads, every listed row renders |
| Api.ReadAllMerchants | sequra/api/resource/disbursement.py:70-81 | Without a name, the listing has one item per listed row, in store order, carrying that row's amount, the week, the year and its merchant's name |
| Api.ReadEmptyTable | sequra/tests/integration/test_disbursement.py:45-49 | Reading a week from an empty table gives an empty list |
| Api.ReadUnknownMerchant | sequra/api/resource/disbursement.py:83-84 | A name that no merchant has reads as an empty list, never as an error |
| Api.ReadKnownMerchant | sequra/api/resource/disbursement.py:83-90 | For a name exactly one merchant has: 404 exactly when the key has no row, 500 exactly when it has several, and a single item exactly when it has one, namely that row's amount, the week, the year and the merchant's name |
| Api.ScenarioSelection | sequra/tests/integration/test_disbursement.py:21-31 | In the integration data, the selector returns the one order's amount 1.00 for week 1 of 2020 |
| Api.ScenarioCalculation | sequra/tests/integration/test_disbursement.py:37-40 | The scenario's request passes the guards for merchant_1, and the hook computes 1.01 for its key |
| Api.ScenarioTable | sequra/tests/integration/test_disbursement.py:37-40 | After the calculation the table holds one row of the key, reading 1.01 |
| Api.ScenarioRead | sequra/tests/integration/test_disbursement.py:41-43 | Reading that table for merchant_1, week 1 of 2020 gives the single item 1.01 |
| Api.CalculateThenRead | sequra/tests/integration/test_disbursement.py:37-43 | On a fresh database holding the scenario's data, calculation answers 201 with id 1, and the read answers the item (1.01, week 1, 2020, merchant_1) |

## Left out

- `Disbursement.asdict` renders the amount with `float(...)`. The model's
  `Api.Item` keeps the decimal; binary floating point and JSON rendering
  are not modelled.
- Python's decimal context rounds every intermediate sum and product to
  28 significant digits (ROUND_HALF_EVEN). The model computes the running
  total exactly, as a real. The results can differ when the exact total
  lies within that accumulated rounding error of a half cent.
- Fees.DisbursedAmount: a total of 10^26 or more needs more than 28
  digits in cents, so `quantize` raises InvalidOperation. The hook then
  fails, the session rolls back and the request answers 500. The model
  instead returns the rounded value (`Fees.Quantize` has no digit limit).
- `Decimal(text)` is modelled for finite numbers written with digits 0-9,
  an optional sign, point and exponent. Surrounding whitespace,
  underscores, NaN, Infinity and non-ASCII digits are not modelled.
  `str` is modelled for finite decimals only.
- Flask routing, marshmallow's conversion of query strings, its messages
  and the handling of unknown fields are not modelled. A query is given
  as already-converted optional values. On the read path, the week and
  year go to SQLite as strings and rely on column affinity for the
  comparison; this is modelled as an integer comparison.
- Concurrency is not modelled: two calculation requests racing for the
  same key, and the session's transactions and rollbacks. Requests run
  one at a time.
- Seeding from JSON (`init_db_seed`), the application factory and the
  settings are not modelled. The times of day in completion timestamps
  are not modelled either; the `%W` week depends only on the date.
- `validate_email`, the shopper table, merchants' `cif` and `email`, and
  orders' `shopper_id` and `created_at` take no part in the engine and
  are not modelled.
- Disbursements inserted with an explicit id are not modelled: ids are
  always assigned as the next id.
- Models.Disbursement.Save: the object's own amount field keeps its
  pre-insert value. Expiry and reload of the object's attributes after
  commit are not modelled; the table holds the amount the hook wrote.
- Models.Database.AddOrder does not check that the order's merchant
  exists. The source declares the foreign key but never switches on
  SQLite's foreign-key enforcement, so the insert succeeds; such an
  order is never selected, because the selection joins the merchant
  table.
- Models.Database.Valid assumes that every stored amount text parses.
  This holds for every table built through the modelled operations.
  Hand-written amount texts would make the hook or the read fail with a
  500 instead; the read and fee functions still model those paths
  through `Option`.
