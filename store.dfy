/** The two tables the fraud service reads and writes, as maps held in the
    fields of one store object, with the lookup, upsert and insert it uses. */
module InvoiceStore {
  import opened FraudTypes

  /** The rows of `table` listed in the order of `ids`. */
  function RowsOf(ids: seq<InvoiceId>, table: map<InvoiceId, Invoice>): (rows: seq<Invoice>)
    requires forall i | 0 <= i < |ids| :: ids[i] in table
    ensures |rows| == |ids|
    ensures forall i | 0 <= i < |ids| :: rows[i] == table[ids[i]]
  {
    if ids == [] then []
    else RowsOf(ids[..|ids| - 1], table) + [table[ids[|ids| - 1]]]
  }

  /** The account an upsert by `id` with an empty update yields: the stored
      one if there is one, otherwise a fresh, not suspicious account. */
  function UpsertedAccount(accounts: map<AccountId, Account>, id: AccountId): (account: Account)
    ensures id in accounts ==> account == accounts[id]
    ensures id !in accounts ==> account.id == id && !account.isSuspicious
  {
    if id in accounts then accounts[id] else Account(id, false)
  }

  class Store {
    var accounts: map<AccountId, Account>
    var invoices: map<InvoiceId, Invoice>
    /** The invoice ids in the order their rows were inserted. */
    var order: seq<InvoiceId>

    /** Keys match the rows' ids, every invoice's account exists, and `order`
        lists every invoice id exactly once. */
    ghost predicate Valid()
      reads this
    {
      TablesValid(accounts, invoices, order)
    }

    /** Every invoice is REJECTED exactly when it carries a fraud-history record. */
    ghost predicate ConsistentVerdicts()
      reads this
    {
      VerdictsConsistent(invoices)
    }

    constructor ()
      ensures Valid() && ConsistentVerdicts()
      ensures accounts == map[] && invoices == map[] && order == []
    {
      accounts, invoices, order := map[], map[], [];
    }

    /** The invoice table, in insertion order. */
    function Rows(): (rows: seq<Invoice>)
      reads this
      requires Valid()
      ensures forall i | 0 <= i < |rows| :: rows[i].accountId in accounts
    {
      RowsOf(order, invoices)
    }

    /** The rows are exactly the table's invoices, each listed once. */
    lemma RowsAreTheTable()
      requires Valid()
      ensures |Rows()| == |invoices|
      ensures forall x :: x in Rows() <==> x in invoices.Values
    {
      var rows := Rows();
      assert forall id | id in invoices :: exists i | 0 <= i < |order| :: order[i] == id;
      assert forall x | x in invoices.Values :: exists id | id in invoices :: invoices[id] == x;
      assert invoices.Keys == set i | 0 <= i < |order| :: order[i];
      DistinctCardinality(order);
    }

    /** `invoice.findUnique({ where: { id } })` */
    method FindUniqueInvoice(id: InvoiceId) returns (found: Option<Invoice>)
      ensures found.Some? <==> id in invoices
      ensures found.Some? ==> found.value == invoices[id]
    {
      if id in invoices {
        found := Some(invoices[id]);
      } else {
        found := None;
      }
    }

    /** `account.upsert({ where: { id }, update: {}, create: { id } })` */
    method UpsertAccount(id: AccountId) returns (account: Account)
      requires Valid()
      modifies this
      ensures Valid()
      ensures account == UpsertedAccount(old(accounts), id)
      ensures id in old(accounts) ==> accounts == old(accounts)
      ensures id !in old(accounts) ==> accounts == old(accounts)[id := Account(id, false)]
      ensures accounts == old(accounts)[id := account]
      ensures invoices == old(invoices) && order == old(order)
      ensures Rows() == old(Rows())
      ensures ConsistentVerdicts() == old(ConsistentVerdicts())
    {
      if id in accounts {
        account := accounts[id];
      } else {
        account := Account(id, false);
        accounts := accounts[id := account];
      }
    }

    /** `invoice.create({ data })`: the store stamps the row with `now`. The
        id must be new and the account must exist, as the table's keys demand. */
    method CreateInvoice(id: InvoiceId, accountId: AccountId, amount: real, status: InvoiceStatus,
                         fraudHistory: Option<FraudRecord>, now: Timestamp) returns (created: Invoice)
      requires Valid()
      requires id !in invoices && accountId in accounts
      modifies this
      ensures Valid()
      ensures created == Invoice(id, accountId, amount, status, now, fraudHistory)
      ensures accounts == old(accounts)
      ensures invoices == old(invoices)[id := created]
      ensures order == old(order) + [id]
      ensures Rows() == old(Rows()) + [created]
      ensures old(ConsistentVerdicts()) && (status == REJECTED <==> fraudHistory.Some?) ==> ConsistentVerdicts()
    {
      created := Invoice(id, accountId, amount, status, now, fraudHistory);
      RowsOfExtend(order, invoices, created);
      InsertKeepsTables(accounts, invoices, order, created);
      invoices := invoices[id := created];
      order := order + [id];
    }
  }

  ghost predicate TablesValid(accounts: map<AccountId, Account>, invoices: map<InvoiceId, Invoice>, order: seq<InvoiceId>)
  {
    && (forall id | id in accounts :: accounts[id].id == id)
    && (forall id | id in invoices :: invoices[id].id == id && invoices[id].accountId in accounts)
    && (forall i | 0 <= i < |order| :: order[i] in invoices)
    && (forall i, j | 0 <= i < j < |order| :: order[i] != order[j])
    && (forall id | id in invoices :: id in order)
  }

  ghost predicate VerdictsConsistent(invoices: map<InvoiceId, Invoice>)
  {
    forall id | id in invoices :: (invoices[id].status == REJECTED <==> invoices[id].fraudHistory.Some?)
  }

  /** Inserting a row with a new id for an existing account keeps the tables
      well formed, and keeps status and fraud record in step when the new row
      has them in step. */
  lemma InsertKeepsTables(accounts: map<AccountId, Account>, invoices: map<InvoiceId, Invoice>,
                          order: seq<InvoiceId>, row: Invoice)
    requires TablesValid(accounts, invoices, order)
    requires row.id !in invoices && row.accountId in accounts
    ensures TablesValid(accounts, invoices[row.id := row], order + [row.id])
    ensures VerdictsConsistent(invoices) && (row.status == REJECTED <==> row.fraudHistory.Some?) ==>
      VerdictsConsistent(invoices[row.id := row])
  {
    var order' := order + [row.id];
    forall i, j | 0 <= i < j < |order'| ensures order'[i] != order'[j] {
      if j == |order| {
        assert order[i] in invoices;
      }
    }
  }

  lemma RowsOfExtend(ids: seq<InvoiceId>, table: map<InvoiceId, Invoice>, row: Invoice)
    requires forall i | 0 <= i < |ids| :: ids[i] in table
    requires row.id !in table
    ensures forall i | 0 <= i < |ids + [row.id]| :: (ids + [row.id])[i] in table[row.id := row]
    ensures RowsOf(ids + [row.id], table[row.id := row]) == RowsOf(ids, table) + [row]
  {
    var ids' := ids + [row.id];
    var table' := table[row.id := row];
    assert ids'[..|ids'| - 1] == ids;
    assert RowsOf(ids, table') == RowsOf(ids, table);
  }

  /** A sequence without repeated elements has as many elements as its set. */
  lemma {:induction false} DistinctCardinality<T>(s: seq<T>)
    requires forall i, j | 0 <= i < j < |s| :: s[i] != s[j]
    ensures |set i | 0 <= i < |s| :: s[i]| == |s|
  {
    if s != [] {
      var n := |s| - 1;
      DistinctCardinality(s[..n]);
      var prefix := set i | 0 <= i < n :: s[..n][i];
      assert (set i | 0 <= i < |s| :: s[i]) == prefix + {s[n]};
      assert s[n] !in prefix;
    }
  }
}
