/** The invoice-table queries the rule chain issues, as functions over the
    table's rows in row order: a `where` filter, the newest-first ordering
    with a row limit, and the sum of amounts. */
module InvoiceQueries {
  import opened FraudTypes

  /** The rows `keep` accepts, in table order. */
  function Where(rows: seq<Invoice>, keep: Invoice -> bool): (r: seq<Invoice>)
    ensures forall x :: multiset(r)[x] == if keep(x) then multiset(rows)[x] else 0
    ensures forall i | 0 <= i < |r| :: keep(r[i])
    ensures |r| <= |rows|
  {
    if rows == [] then []
    else
      var rest := Where(rows[1..], keep);
      assert rows == [rows[0]] + rows[1..];
      if keep(rows[0]) then [rows[0]] + rest else rest
  }

  /** `where: { accountId }` */
  function OfAccount(rows: seq<Invoice>, accountId: AccountId): (r: seq<Invoice>)
    ensures forall x :: multiset(r)[x] == if x.accountId == accountId then multiset(rows)[x] else 0
    ensures forall i | 0 <= i < |r| :: r[i].accountId == accountId
  {
    Where(rows, (x: Invoice) => x.accountId == accountId)
  }

  /** `where: { accountId, createdAt: { gte: since } }` */
  function CreatedSince(rows: seq<Invoice>, accountId: AccountId, since: Timestamp): (r: seq<Invoice>)
    ensures forall x :: multiset(r)[x] == (if x.accountId == accountId && x.createdAt >= since then multiset(rows)[x] else 0)
    ensures forall i | 0 <= i < |r| :: r[i].accountId == accountId && r[i].createdAt >= since
  {
    Where(rows, (x: Invoice) => x.accountId == accountId && x.createdAt >= since)
  }

  lemma {:induction false} OfAccountAll(rows: seq<Invoice>, accountId: AccountId)
    requires forall i | 0 <= i < |rows| :: rows[i].accountId == accountId
    ensures OfAccount(rows, accountId) == rows
  {
    if rows != [] {
      OfAccountAll(rows[1..], accountId);
      assert rows == [rows[0]] + rows[1..];
    }
  }

  lemma {:induction false} CreatedSinceAll(rows: seq<Invoice>, accountId: AccountId, since: Timestamp)
    requires forall i | 0 <= i < |rows| :: rows[i].accountId == accountId && rows[i].createdAt >= since
    ensures CreatedSince(rows, accountId, since) == rows
  {
    if rows != [] {
      CreatedSinceAll(rows[1..], accountId, since);
      assert rows == [rows[0]] + rows[1..];
    }
  }

  ghost predicate IsNewestFirst(s: seq<Invoice>) {
    forall i, j | 0 <= i < j < |s| :: s[i].createdAt >= s[j].createdAt
  }

  /** Inserts `x` into a newest-first sequence, ahead of every row that is
      not newer than it. */
  function InsertNewest(x: Invoice, s: seq<Invoice>): (r: seq<Invoice>)
    requires IsNewestFirst(s)
    ensures IsNewestFirst(r)
    ensures multiset(r) == multiset(s) + multiset{x}
    ensures |r| == |s| + 1
    ensures r[0] == x || (s != [] && r[0] == s[0])
  {
    if s == [] || s[0].createdAt <= x.createdAt then [x] + s
    else
      var rest := InsertNewest(x, s[1..]);
      assert s == [s[0]] + s[1..];
      [s[0]] + rest
  }

  /** `orderBy: { createdAt: 'desc' }`: a stable sort, so rows with equal
      `createdAt` keep their table order. */
  function NewestFirst(rows: seq<Invoice>): (r: seq<Invoice>)
    ensures IsNewestFirst(r)
    ensures multiset(r) == multiset(rows)
    ensures |r| == |rows|
  {
    if rows == [] then []
    else
      assert rows == [rows[0]] + rows[1..];
      InsertNewest(rows[0], NewestFirst(rows[1..]))
  }

  function Min(a: int, b: int): int { if a <= b then a else b }

  /** `findMany({ where: { accountId }, orderBy: { createdAt: 'desc' }, take })`. */
  function Latest(rows: seq<Invoice>, accountId: AccountId, take: nat): (r: seq<Invoice>)
    ensures |r| == Min(take, |OfAccount(rows, accountId)|)
    ensures IsNewestFirst(r)
  {
    var sorted := NewestFirst(OfAccount(rows, accountId));
    sorted[..Min(take, |sorted|)]
  }

  /** Rows left out of a prefix of a newest-first sequence are no newer than
      any row in the prefix. */
  lemma NewestFirstPrefix(s: seq<Invoice>, k: nat)
    requires IsNewestFirst(s) && k <= |s|
    ensures forall x, y | x in s[..k] && y in multiset(s) - multiset(s[..k]) :: y.createdAt <= x.createdAt
  {
    assert s == s[..k] + s[k..];
    assert multiset(s) - multiset(s[..k]) == multiset(s[k..]);
    forall x, y | x in s[..k] && y in multiset(s) - multiset(s[..k]) ensures y.createdAt <= x.createdAt {
      assert y in s[k..];
      var i :| 0 <= i < k && s[i] == x;
      var j :| 0 <= j < |s| - k && s[k..][j] == y;
      assert s[k + j] == y;
    }
  }

  /** What the limited newest-first query returns: at most `take` of the
      account's rows, all of them when the account has no more, newest first,
      and none older than a row of the account it leaves out. */
  lemma LatestSpec(rows: seq<Invoice>, accountId: AccountId, take: nat)
    ensures var r := Latest(rows, accountId, take);
      && |r| == Min(take, |OfAccount(rows, accountId)|)
      && (forall i | 0 <= i < |r| :: r[i].accountId == accountId)
      && multiset(r) <= multiset(OfAccount(rows, accountId))
      && IsNewestFirst(r)
      && (forall x, y | x in r && y in multiset(OfAccount(rows, accountId)) - multiset(r) ::
            y.createdAt <= x.createdAt)
  {
    var a := OfAccount(rows, accountId);
    var s := NewestFirst(a);
    var k := Min(take, |s|);
    var r := s[..k];
    assert r == Latest(rows, accountId, take);
    PrefixMultiset(s, k);
    forall i | 0 <= i < |r| ensures r[i].accountId == accountId {
      assert r[i] in multiset(a);
    }
    NewestFirstPrefix(s, k);
  }

  lemma PrefixMultiset(s: seq<Invoice>, k: nat)
    requires k <= |s|
    ensures multiset(s[..k]) <= multiset(s)
    ensures forall i | 0 <= i < k :: s[..k][i] in multiset(s)
  {
    assert s == s[..k] + s[k..];
  }

  /** When `take` covers the account's rows, the query returns all of them. */
  lemma LatestAll(rows: seq<Invoice>, accountId: AccountId, take: nat)
    requires take >= |OfAccount(rows, accountId)|
    ensures multiset(Latest(rows, accountId, take)) == multiset(OfAccount(rows, accountId))
  {
    var sorted := NewestFirst(OfAccount(rows, accountId));
    assert sorted[..Min(take, |sorted|)] == sorted;
  }

  /** A query with a positive limit that finds nothing means the account has
      no rows, so no window of it has any either. */
  lemma NoHistoryNoWindow(rows: seq<Invoice>, accountId: AccountId, take: nat, since: Timestamp)
    requires take > 0 && |Latest(rows, accountId, take)| == 0
    ensures CreatedSince(rows, accountId, since) == []
  {
    LatestSpec(rows, accountId, take);
    var a := OfAccount(rows, accountId);
    assert |a| == 0;
    var w := CreatedSince(rows, accountId, since);
    forall x ensures multiset(w)[x] == 0 {
      assert multiset(a)[x] == 0;
    }
    assert multiset(w) == multiset{};
  }

  /** Left fold of the amounts, starting at 0, as `reduce((acc, invoice) => acc + invoice.amount, 0)`. */
  function TotalAmount(s: seq<Invoice>): (total: real)
    ensures (forall i | 0 <= i < |s| :: s[i].amount >= 0.0) ==> total >= 0.0
  {
    if s == [] then 0.0 else TotalAmount(s[..|s| - 1]) + s[|s| - 1].amount
  }

  lemma {:induction false} TotalAmountAppend(a: seq<Invoice>, b: seq<Invoice>)
    ensures TotalAmount(a + b) == TotalAmount(a) + TotalAmount(b)
  {
    if b == [] {
      assert a + b == a;
    } else {
      var b' := b[..|b| - 1];
      assert (a + b)[..|a + b| - 1] == a + b';
      TotalAmountAppend(a, b');
    }
  }

  lemma {:induction false} TotalAmountConstant(s: seq<Invoice>, c: real)
    requires forall i | 0 <= i < |s| :: s[i].amount == c
    ensures TotalAmount(s) == (|s| as real) * c
  {
    if s != [] {
      TotalAmountConstant(s[..|s| - 1], c);
    }
  }

  /** The total does not depend on the order the rows are visited in, so the
      average of the selected rows does not depend on how ties were ordered. */
  lemma {:induction false} TotalAmountPermutation(s: seq<Invoice>, t: seq<Invoice>)
    requires multiset(s) == multiset(t)
    ensures TotalAmount(s) == TotalAmount(t)
  {
    if s == [] {
      assert |t| == |multiset(t)| == 0;
    } else {
      var n := |s| - 1;
      var x := s[n];
      assert s == s[..n] + [x];
      assert x in multiset(t);
      var j :| 0 <= j < |t| && t[j] == x;
      var t' := t[..j] + t[j + 1..];
      assert t == t[..j] + [x] + t[j + 1..];
      assert multiset(s) == multiset(s[..n]) + multiset{x};
      assert multiset(t) == multiset(t[..j]) + multiset{x} + multiset(t[j + 1..]);
      assert multiset(t') == multiset(t[..j]) + multiset(t[j + 1..]);
      assert multiset(s[..n]) == multiset(s) - multiset{x};
      assert multiset(t') == multiset(t) - multiset{x};
      TotalAmountPermutation(s[..n], t');
      TotalAmountAppend(t[..j] + [x], t[j + 1..]);
      TotalAmountAppend(t[..j], [x]);
      TotalAmountAppend(t[..j], t[j + 1..]);
      assert TotalAmount([x]) == x.amount by {
        assert [x][..0] == [];
      }
    }
  }
}
