/** Processing one invoice request: the duplicate guard, the account upsert,
    the fraud decision and the insert of the invoice with its status and
    optional fraud-history record. */
module InvoiceProcessing {
  import opened FraudTypes
  import opened FraudDetection
  import opened InvoiceStore

  /** The row the service inserts for a request with the given verdict. The
      verdict's reason is read without a check, so a fraud verdict must have
      one. */
  function PersistedInvoice(id: InvoiceId, accountId: AccountId, amount: real, verdict: Verdict, createdAt: Timestamp): (inv: Invoice)
    requires verdict.hasFraud ==> verdict.reason.Some?
    ensures inv.id == id && inv.accountId == accountId && inv.amount == amount && inv.createdAt == createdAt
    ensures inv.status == REJECTED <==> verdict.hasFraud
    ensures inv.fraudHistory.Some? <==> verdict.hasFraud
    ensures inv.fraudHistory.Some? ==>
      inv.fraudHistory.value.reason == verdict.reason.value && inv.fraudHistory.value.description == verdict.description
  {
    Invoice(
      id, accountId, amount,
      if verdict.hasFraud then REJECTED else APPROVED,
      createdAt,
      if verdict.hasFraud then Some(FraudRecord(verdict.reason.value, verdict.description)) else None)
  }

  class FraudService {
    const store: Store

    constructor (store: Store)
      ensures this.store == store
    {
      this.store := store;
    }

    /** Processes one request against the store. `config` holds the four
        configuration values and `now` is the clock reading that both sets the
        start of the trailing window and stamps the new row. */
    method ProcessInvoice(invoiceId: InvoiceId, accountId: AccountId, amount: real, config: Config, now: Timestamp)
      returns (r: Result<Processed>)
      requires store.Valid()
      modifies store
      ensures store.Valid()
      ensures r.Failure? <==> old(invoiceId in store.invoices)
      ensures r.Failure? ==> r.error == InvoiceAlreadyProcessed && unchanged(store)
      ensures r.Success? ==>
        var account := UpsertedAccount(old(store.accounts), accountId);
        var verdict := DetectFraud(account, amount, old(store.Rows()), config, now);
        var stored := PersistedInvoice(invoiceId, accountId, amount, verdict, now);
        && r.value.fraudResult == verdict
        && r.value.invoice == Columns(stored)
        && store.accounts == old(store.accounts)[accountId := account]
        && store.invoices == old(store.invoices)[invoiceId := stored]
        && store.Rows() == old(store.Rows()) + [stored]
      ensures r.Success? && accountId in old(store.accounts) ==> store.accounts == old(store.accounts)
      ensures r.Success? && accountId !in old(store.accounts) ==>
        store.accounts == old(store.accounts)[accountId := Account(accountId, false)]
      ensures r.Success? ==> (r.value.invoice.status == REJECTED <==> r.value.fraudResult.hasFraud)
      ensures r.Success? ==> (store.invoices[invoiceId].fraudHistory.Some? <==> r.value.fraudResult.hasFraud)
      ensures r.Success? && r.value.fraudResult.hasFraud ==>
        store.invoices[invoiceId].fraudHistory == Some(FraudRecord(r.value.fraudResult.reason.value, r.value.fraudResult.description))
      ensures r.Success? && accountId !in old(store.accounts) ==>
        r.value.fraudResult == Clean && r.value.invoice.status == APPROVED
      ensures old(store.ConsistentVerdicts()) ==> store.ConsistentVerdicts()
    {
      var found := store.FindUniqueInvoice(invoiceId);
      if found.Some? {
        return Failure(InvoiceAlreadyProcessed);
      }

      ghost var rowsBefore := store.Rows();
      var account := store.UpsertAccount(accountId);
      var rows := store.Rows();
      assert rows == rowsBefore;
      if accountId !in old(store.accounts) {
        ColdStartIsClean(account, amount, rows, config, now);
      }

      var fraudResult := DetectFraud(account, amount, rows, config, now);

      var status := if fraudResult.hasFraud then REJECTED else APPROVED;
      var fraudHistory := if fraudResult.hasFraud
        then Some(FraudRecord(fraudResult.reason.value, fraudResult.description))
        else None;
      var invoice := store.CreateInvoice(invoiceId, accountId, amount, status, fraudHistory, now);

      r := Success(Processed(Columns(invoice), fraudResult));
    }
  }

  /** Submitting the same invoice id twice: the second call fails and leaves
      the tables as the first call left them, so the two calls together change
      the store exactly as the first alone does. */
  method SubmitTwice(service: FraudService, invoiceId: InvoiceId, accountId: AccountId, amount: real,
                     config: Config, now: Timestamp, later: Timestamp)
    returns (first: Result<Processed>, second: Result<Processed>)
    requires service.store.Valid()
    modifies service.store
    ensures first.Success? <==> invoiceId !in old(service.store.invoices)
    ensures second == Failure(InvoiceAlreadyProcessed)
    ensures invoiceId in service.store.invoices
    ensures first.Success? ==> Columns(service.store.invoices[invoiceId]) == first.value.invoice
    ensures first.Success? ==>
      var account := UpsertedAccount(old(service.store.accounts), accountId);
      var verdict := DetectFraud(account, amount, old(service.store.Rows()), config, now);
      && service.store.accounts == old(service.store.accounts)[accountId := account]
      && service.store.invoices == old(service.store.invoices)[invoiceId := PersistedInvoice(invoiceId, accountId, amount, verdict, now)]
    ensures first.Failure? ==>
      service.store.accounts == old(service.store.accounts) && service.store.invoices == old(service.store.invoices)
  {
    first := service.ProcessInvoice(invoiceId, accountId, amount, config, now);
    ghost var accountsAfterFirst, invoicesAfterFirst := service.store.accounts, service.store.invoices;
    second := service.ProcessInvoice(invoiceId, accountId, amount, config, later);
    assert service.store.accounts == accountsAfterFirst && service.store.invoices == invoicesAfterFirst;
  }
}
