# Invoice fraud decision — a Dafny model

This project models the fraud service of an invoice anti-fraud system. The
service receives a request with an invoice id, an account id and an amount.
It refuses an invoice id it has already stored. It fetches or creates the
account and runs a fixed-priority rule chain over the account and its
invoice history. It then inserts the invoice as APPROVED or REJECTED; a
rejected invoice gets a fraud-history record carrying the verdict's reason
and description.

The rule chain, in order:

1. A suspicious account is rejected with `SUSPICIOUS_ACCOUNT`. No history is read.
2. The account's newest `INVOICES_HISTORY_COUNT` invoices are fetched.
   If there are none, the verdict is clean.
   Otherwise their mean `avg` is computed. An amount strictly above
   `avg * (1 + SUSPICIOUS_VARIATION_PERCENTAGE / 100) + avg` is rejected with `UNUSUAL_PATTERN`.
3. Still inside the non-empty-history branch, the invoices created at or
   after `now - SUSPICIOUS_TIMEFRAME_HOURS` are counted. More than
   `SUSPICIOUS_INVOICES_COUNT` of them is rejected with `FREQUENT_HIGH_VALUE`.
4. Otherwise the verdict is clean: `hasFraud` false, reason and description null.

Layout:

- `types.dfy` (`FraudTypes`): accounts, invoices, fraud records, the verdict
  record `{hasFraud, reason?, description?}`, the four configuration values,
  and the result of processing.
- `queries.dfy` (`InvoiceQueries`): the store queries the chain issues, as
  functions over the invoice table's rows. They are the `where` filter, the
  newest-first ordering with a row limit, and the left fold that sums amounts.
  Their lemmas include the specification of the limited query.
- `detection.dfy` (`FraudDetection`): `DetectFraud`, the rule chain as a pure
  function over a snapshot of the table. Beside it, an independent first-match
  reading of the same rules, with the lemmas relating the two.
- `store.dfy` (`InvoiceStore`): class `Store`. It holds the account table and
  the invoice table as maps in fields, and the invoice ids in insertion order.
  Its methods are the three store operations the service uses: find by id,
  upsert, and create.
- `service.dfy` (`InvoiceProcessing`): class `FraudService`, whose
  `ProcessInvoice` method changes the store step by step as the source does.

Inputs that are not computations are parameters:

- The configuration is a `Config` value.
- The clock is an integer millisecond timestamp `now`. It gives both the window
  start and the new row's `createdAt`.
- Amounts are exact `real`s.

The invoice table's row order decides ties between rows with equal
`createdAt`. The source's database leaves that order unspecified.

Points where the code's behaviour is worth stating on its own:

- The window rule is nested inside the non-empty-history branch
  (src/invoices/fraud/fraud.service.ts:83-133), so it is not an independent
  rule. `DetectFraudIsFirstMatch` proves that the chain equals a first match
  over the three rules taken independently when the history count is positive
  and the threshold is not negative. With a history count of 0 a
  non-suspicious account is always clean (`NoHistoryCountIsClean`), and
  `WindowRuleNeedsHistory` exhibits a table where the independent rules
  would flag it.
- The window rule's description hard-codes "10" and "24 hours"
  (src/invoices/fraud/fraud.service.ts:130) and varies only with the account
  id, whatever the configured threshold and timeframe; so does
  `TooManyRecentInvoices(accountId)`.
- src/invoices/invoices.module.ts:22-26 registers a rule list in the order
  frequent, unusual, suspicious. `FraudService` never injects it; its inline
  order (suspicious, unusual, frequent) is the one modelled.
- The service reads the amount unchecked, so no precondition restricts it.
- The service returns the value of the invoice insert, which carries the
  invoice's own columns but not its nested fraud-history record
  (src/invoices/fraud/fraud.service.ts:39-61); the reason reaches the caller
  only through `fraudResult`. `Processed.invoice` is therefore an
  `InvoiceColumns`, while the stored row keeps its record.

## Model

| member | source | states |
|---|---|---|
| `InvoiceQueries.Where` | src/invoices/fraud/fraud.service.ts:75-78 | A `where` filter keeps each row exactly as many times as the table has it when the condition holds, and never otherwise; every returned row satisfies the condition |
| `InvoiceQueries.OfAccount` | src/invoices/fraud/fraud.service.ts:76-78 | The account filter keeps exactly the account's rows, each with its multiplicity in the table |
| `InvoiceQueries.CreatedSince` | src/invoices/fraud/fraud.service.ts:114-121 | The window query keeps exactly the account's rows created at or after the window start, each with its multiplicity in the table |
| `InvoiceQueries.NewestFirst` | src/invoices/fraud/fraud.service.ts:79 | `orderBy createdAt desc` returns a permutation of its input in non-increasing `createdAt` order |
| `InvoiceQueries.Latest` | src/invoices/fraud/fraud.service.ts:75-81 | The limited history query returns min(take, number of the account's rows) rows, newest first; `LatestSpec` gives the rest of its specification |
| `InvoiceQueries.LatestSpec` | src/invoices/fraud/fraud.service.ts:75-81 | The limited history query returns min(take, number of the account's invoices) rows. All of them belong to the account and form a sub-multiset of its rows, newest first, and no left-out row of the account is newer than a returned one |
| `InvoiceQueries.LatestAll` | src/invoices/fraud/fraud.service.ts:80 | When the limit covers the account's invoices, the query returns all of them |
| `InvoiceQueries.NoHistoryNoWindow` | src/invoices/fraud/fraud.service.ts:75-83 | If the history query has a positive limit and finds nothing, the account has no rows, so the window query finds none either |

| `InvoiceQueries.OfAccountAll` | src/invoices/fraud/fraud.service.ts:75-78 | A table whose rows all belong to the account is returned whole by the account filter |
| `InvoiceQueries.CreatedSinceAll` | src/invoices/fraud/fraud.service.ts:114-121 | A table whose rows all belong to the account and lie in the window is returned whole by the window query |
| `InvoiceQueries.TotalAmount` | src/invoices/fraud/fraud.service.ts:84-86 | The left fold of the amounts from 0 is non-negative when every amount is; `TotalAmountAppend`, `TotalAmountPermutation` and `TotalAmountConstant` give its algebra |
| `InvoiceQueries.TotalAmountAppend` | src/invoices/fraud/fraud.service.ts:84-86 | The amount fold over a concatenation is the sum of the two folds |
| `InvoiceQueries.TotalAmountPermutation` | src/invoices/fraud/fraud.service.ts:84-86 | The summed amount depends only on the multiset of rows folded, not on their order |
| `InvoiceQueries.TotalAmountConstant` | src/invoices/fraud/fraud.service.ts:84-86 | Rows that all have amount c sum to their count times c |
| `FraudDetection.Mean` | src/invoices/fraud/fraud.service.ts:88 | The average times the number of rows is their summed amount |
| `FraudDetection.UnusualThreshold` | src/invoices/fraud/fraud.service.ts:90-98 | With a non-negative average and percentage the threshold is at least twice the average; `ThresholdIsMultiple` gives its closed form |
| `FraudDetection.WindowStart` | src/invoices/fraud/fraud.service.ts:107-112 | The window starts no later than now for a non-negative timeframe, and no earlier than now for a non-positive one |
| `FraudDetection.DetectFraud` | src/invoices/fraud/fraud.service.ts:64-140 | A verdict has a reason iff it is a fraud verdict, and a description iff it is a fraud verdict; the reason is `SUSPICIOUS_ACCOUNT` iff the account is suspicious, and a suspicious account always yields the fixed `SUSPICIOUS_ACCOUNT` verdict whatever the history, amount or configuration |
| `FraudDetection.NoRowsOfAccount` | src/invoices/fraud/fraud.service.ts:75-81 | A table with no row of the account gives empty history and window queries |
| `FraudDetection.ColdStartIsClean` | src/invoices/fraud/fraud.service.ts:83-139 | A non-suspicious account with no prior invoice gets the clean verdict for every amount and configuration |
| `FraudDetection.CleanIff` | src/invoices/fraud/fraud.service.ts:83-139 | For a non-suspicious account the verdict is clean iff there is no history, or the amount is within the threshold and the window holds at most `invoicesCount` rows |
| `FraudDetection.NoHistoryCountIsClean` | src/invoices/fraud/fraud.service.ts:75-139 | With a history count of 0 a non-suspicious account is clean for every table, amount and other configuration |
| `FraudDetection.UnusualPatternIff` | src/invoices/fraud/fraud.service.ts:83-105 | For a non-suspicious account: `UNUSUAL_PATTERN` iff the history is non-empty and the amount strictly exceeds the threshold from the mean of the limited newest-first history. Its description carries that amount and that mean, and an amount equal to the threshold is not flagged |
| `FraudDetection.ThresholdIsMultiple` | src/invoices/fraud/fraud.service.ts:90-98 | The threshold equals avg·(2 + p/100); with non-negative average and percentage it is at least twice the average |
| `FraudDetection.FrequentHighValueIff` | src/invoices/fraud/fraud.service.ts:107-132 | For a non-suspicious account: `FREQUENT_HIGH_VALUE` iff the history is non-empty, the unusual-amount rule did not fire, and the account's rows with createdAt ≥ now − hours exceed the threshold. The window holds exactly those rows |
| `FraudDetection.RuleVerdict` | src/invoices/fraud/fraud.service.ts:67-132 | One rule taken on its own: a match is a fraud verdict with that rule's reason and a description, and the suspicious rule matches iff the account is suspicious |
| `FraudDetection.FirstMatch` | src/invoices/fraud/fraud.service.ts:64-140 | First-match reading of a rule list: fraud iff some rule matches, and then the verdict is that of a matching rule with no match before it; otherwise clean |
| `FraudDetection.FirstMatchSkip` | src/invoices/fraud/fraud.service.ts:64-140 | Skipping a first rule that does not match keeps the first match over the rest: existence and first position carry over to the whole list |
| `FraudDetection.PriorityOrderUnfolded` | src/invoices/fraud/fraud.service.ts:67-132 | The first match over suspicious, unusual, frequent, written out rule by rule |
| `FraudDetection.DetectFraudIsFirstMatch` | src/invoices/fraud/fraud.service.ts:64-140 | With a positive history count and a non-negative threshold, the chain equals the first match over the three rules taken independently, in the order suspicious, unusual, frequent |
| `FraudDetection.WindowRuleNeedsHistory` | src/invoices/fraud/fraud.service.ts:83-133 | With a history count of 0 the chain is clean although the window rule on its own would fire, because that rule is nested in the non-empty-history branch (`NoHistoryCountIsClean` gives the clean half for every table) |
| `FraudDetection.UniformHistory` | src/invoices/fraud/fraud.service.ts:75-121 | For a table of same-amount rows of the account inside the window: the history has min(take, size) rows, its mean is that amount, and the window is the whole table |
| `FraudDetection.MeanOfUniform` | src/invoices/fraud/fraud.service.ts:84-88 | The mean of rows that all have amount c is c |
| `FraudDetection.AverageScenario` | src/invoices/fraud/fraud.service.ts:83-139 | History of three invoices of 100, variation 50%: 260 yields `UNUSUAL_PATTERN` with average 100, and 240 yields the clean verdict |
| `FraudDetection.FrequentScenario` | src/invoices/fraud/fraud.service.ts:107-132 | Eleven invoices of 100 in the window with threshold 10: an amount of 100 yields `FREQUENT_HIGH_VALUE` |

| `InvoiceStore.RowsOf` | src/invoices/fraud/fraud.service.ts:75-81 | The table rows listed in the order of the given ids, one per id |
| `InvoiceStore.UpsertedAccount` | src/invoices/fraud/fraud.service.ts:27-35 | The upsert with an empty update returns a stored account as it is, and otherwise a new account with that id that is not suspicious |
| `InvoiceStore.Store.Rows` | src/invoices/fraud/fraud.service.ts:75-81 | Every row of the invoice table belongs to an existing account |
| `InvoiceStore.Store.RowsAreTheTable` | src/invoices/fraud/fraud.service.ts:75-81 | The rows the queries see are exactly the stored invoices, one row per invoice |
| `InvoiceStore.Store.FindUniqueInvoice` | src/invoices/fraud/fraud.service.ts:17-21 | The lookup by id finds a row iff one with that id is stored, and then returns it |
| `InvoiceStore.Store.UpsertAccount` | src/invoices/fraud/fraud.service.ts:27-35 | An existing account is returned and left as stored, suspicious flag included. Otherwise exactly one new, non-suspicious account with that id is added. The invoice table is untouched |
| `InvoiceStore.Store.CreateInvoice` | src/invoices/fraud/fraud.service.ts:39-56 | The insert adds exactly the given row, stamped with `now`, under its id and at the end of the row order. Every other row and the accounts are unchanged, and the status/fraud-record agreement is kept |
| `InvoiceStore.InsertKeepsTables` | src/invoices/fraud/fraud.service.ts:39-56 | Inserting a row with a new id for an existing account keeps the tables well formed, and keeps every status in step with its fraud record |
| `InvoiceStore.RowsOfExtend` | src/invoices/fraud/fraud.service.ts:39-56 | After inserting a row with a new id, the row list is the old one followed by the new row |
| `InvoiceProcessing.PersistedInvoice` | src/invoices/fraud/fraud.service.ts:39-56 | The inserted row has the request's id, account and amount. Its status is REJECTED iff the verdict is fraud. It has a fraud record iff fraud, carrying the verdict's reason and description |
| `InvoiceProcessing.FraudService.ProcessInvoice` | src/invoices/fraud/fraud.service.ts:14-62 | A known invoice id fails and changes neither table. Otherwise: the returned fraud result is the chain's verdict on the upserted account and the pre-insert table; exactly one new invoice is stored, built from that verdict, and the caller receives its columns without the nested record; every other invoice is unchanged; accounts change only by the upserted one. The stored row has a record iff fraud, carrying the verdict's reason and description. A first-time account is always approved, and status/record agreement is preserved |
| `InvoiceProcessing.SubmitTwice` | src/invoices/fraud/fraud.service.ts:14-62 | Submitting an invoice id twice: the second call fails with the duplicate error. The final tables are those the first call alone leaves: the upserted account and the one new invoice when the id was new, the original tables when it was not |

## Left out

- Concurrency and transactions: the race between the lookup and the insert on the same invoice id, and between two first-time upserts of one account, is not modelled. Each call runs alone.
- Store failures: a failing query or write would propagate as an exception; the model's store operations always succeed.
- `CreateInvoice`: the database's rejection of a duplicate id or a missing account is a precondition rather than an error outcome. The service's lookup and upsert always establish it.
- Configuration lookup: the four `getOrThrow` values are a `Config` parameter, and the failure for a missing key is not modelled.
- `Config.historyCount` is a natural number: a negative `take`, which the ORM reads as "from the end", is not modelled.
- Arithmetic is exact on `real`, not IEEE double precision; rounding in the mean and threshold is not modelled.
- Dates: `setHours` on local time (daylight-saving shifts, fractional hours) is replaced by `now - hours * 3_600_000` on a millisecond timestamp. The new row's `createdAt` is that same `now`, not a later reading of the database clock.
- Ties: rows with equal `createdAt` keep table order in the newest-first query, where the database leaves their order open. When such a tie straddles the limit, the database may pick other rows than the model. `TotalAmountPermutation` shows that only which rows are picked matters, not their order.
- Description strings: the descriptions are the values they are built from (`AmountAboveAverage(amount, average)`, `TooManyRecentInvoices(accountId)`), not rendered text. The error's message text is not modelled either; the error is the single outcome `InvoiceAlreadyProcessed`.
- The default of a newly created account's suspicious flag comes from the database schema, which is not part of this model; it is taken to be false.
- The rule list and specification classes registered in src/invoices/invoices.module.ts:15-33 are not part of this model: `FraudService` does not use them.
