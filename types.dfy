/** The records of the invoice fraud service: accounts, invoices, their
    fraud-history records, the verdict of the rule chain and the four
    configuration values the rules read. */
module FraudTypes {

  datatype Option<+T> = None | Some(value: T)

  type AccountId = string
  type InvoiceId = string

  /** Instants, in milliseconds since the epoch. */
  type Timestamp = int

  /** Length of one hour on the Timestamp scale. */
  const MillisPerHour: int := 3_600_000

  datatype FraudReason = SUSPICIOUS_ACCOUNT | UNUSUAL_PATTERN | FREQUENT_HIGH_VALUE

  datatype InvoiceStatus = APPROVED | REJECTED

  /** The human-readable explanation attached to a fraud verdict, kept as the
      values it is built from rather than as rendered text. */
  datatype Description =
    | AccountIsSuspicious
    | AmountAboveAverage(amount: real, average: real)
    | TooManyRecentInvoices(accountId: AccountId)

  /** An account row: its id and the externally set suspicious flag. */
  datatype Account = Account(id: AccountId, isSuspicious: bool)

  /** The fraud-history row created together with a rejected invoice. */
  datatype FraudRecord = FraudRecord(reason: FraudReason, description: Option<Description>)

  /** An invoice row; `fraudHistory` is the nested fraud-history record, if any. */
  datatype Invoice = Invoice(
    id: InvoiceId,
    accountId: AccountId,
    amount: real,
    status: InvoiceStatus,
    createdAt: Timestamp,
    fraudHistory: Option<FraudRecord>)

  /** What the rule chain returns: `hasFraud` with a nullable reason and description. */
  datatype Verdict = Verdict(hasFraud: bool, reason: Option<FraudReason>, description: Option<Description>)

  const Clean: Verdict := Verdict(false, None, None)

  /** The configuration values read by the rules:
      INVOICES_HISTORY_COUNT, SUSPICIOUS_VARIATION_PERCENTAGE,
      SUSPICIOUS_TIMEFRAME_HOURS and SUSPICIOUS_INVOICES_COUNT. */
  datatype Config = Config(
    historyCount: nat,
    variationPercent: real,
    timeframeHours: int,
    invoicesCount: int)

  /** The invoice's own columns, as an insert without `include` returns
      them: the nested fraud-history record is not among them. */
  datatype InvoiceColumns = InvoiceColumns(
    id: InvoiceId,
    accountId: AccountId,
    amount: real,
    status: InvoiceStatus,
    createdAt: Timestamp)

  function Columns(inv: Invoice): InvoiceColumns
  {
    InvoiceColumns(inv.id, inv.accountId, inv.amount, inv.status, inv.createdAt)
  }

  /** The outcome of processing one invoice request: the inserted invoice's
      columns and the verdict, which alone carries the reason to the caller. */
  datatype Processed = Processed(invoice: InvoiceColumns, fraudResult: Verdict)

  datatype ProcessError = InvoiceAlreadyProcessed

  datatype Result<+T> = Success(value: T) | Failure(error: ProcessError)
}
