/** The fraud decision: a fixed-priority rule chain over the account and a
    snapshot of the invoice table, and the first-match reading of that chain. */
module FraudDetection {
  import opened FraudTypes
  import opened InvoiceQueries

  const SuspiciousVerdict: Verdict := Verdict(true, Some(SUSPICIOUS_ACCOUNT), Some(AccountIsSuspicious))

  /** `totalAmount / previousInvoices.length` */
  function Mean(s: seq<Invoice>): (m: real)
    requires |s| > 0
    ensures m * (|s| as real) == TotalAmount(s)
  {
    TotalAmount(s) / (|s| as real)
  }

  /** The amount above which an invoice is unusual: the average raised by the
      variation percentage, plus the average once more. */
  function UnusualThreshold(average: real, variationPercent: real): (threshold: real)
    ensures variationPercent >= 0.0 && average >= 0.0 ==> threshold >= 2.0 * average
  {
    average * (1.0 + variationPercent / 100.0) + average
  }

  /** The start of the trailing window: `timeframeHours` hours before `now`. */
  function WindowStart(now: Timestamp, timeframeHours: int): (start: Timestamp)
    ensures timeframeHours >= 0 ==> start <= now
    ensures timeframeHours <= 0 ==> start >= now
  {
    now - timeframeHours * MillisPerHour
  }

  /** The rule chain, evaluated against `rows`, the invoice table as it stands
      before the new invoice is inserted. */
  function DetectFraud(account: Account, amount: real, rows: seq<Invoice>, config: Config, now: Timestamp): (v: Verdict)
    ensures v.hasFraud <==> v.reason.Some?
    ensures v.hasFraud <==> v.description.Some?
    ensures account.isSuspicious ==> v == SuspiciousVerdict
    ensures v.reason == Some(SUSPICIOUS_ACCOUNT) <==> account.isSuspicious
  {
    if account.isSuspicious then SuspiciousVerdict
    else
      var previous := Latest(rows, account.id, config.historyCount);
      if |previous| > 0 then
        var average := Mean(previous);
        if amount > UnusualThreshold(average, config.variationPercent) then
          Verdict(true, Some(UNUSUAL_PATTERN), Some(AmountAboveAverage(amount, average)))
        else
          var recent := CreatedSince(rows, account.id, WindowStart(now, config.timeframeHours));
          if |recent| > config.invoicesCount then
            Verdict(true, Some(FREQUENT_HIGH_VALUE), Some(TooManyRecentInvoices(account.id)))
          else
            Clean
      else
        Clean
  }

  lemma {:induction false} NoRowsOfAccount(rows: seq<Invoice>, accountId: AccountId)
    requires forall i | 0 <= i < |rows| :: rows[i].accountId != accountId
    ensures OfAccount(rows, accountId) == []
    ensures forall since :: CreatedSince(rows, accountId, since) == []
  {
    if rows != [] {
      NoRowsOfAccount(rows[1..], accountId);
    }
  }

  /** An account without a prior invoice gets a clean verdict whatever the
      amount and the configuration: neither history rule can fire. */
  lemma ColdStartIsClean(account: Account, amount: real, rows: seq<Invoice>, config: Config, now: Timestamp)
    requires !account.isSuspicious
    requires forall i | 0 <= i < |rows| :: rows[i].accountId != account.id
    ensures DetectFraud(account, amount, rows, config, now) == Clean
  {
    NoRowsOfAccount(rows, account.id);
  }

  /** The unusual-amount rule fires exactly when the account has history and
      the amount strictly exceeds the threshold computed from the average of
      at most `historyCount` of its newest invoices; its description carries
      the amount and the average as compared. */
  lemma UnusualPatternIff(account: Account, amount: real, rows: seq<Invoice>, config: Config, now: Timestamp)
    requires !account.isSuspicious
    ensures var h := Latest(rows, account.id, config.historyCount);
      DetectFraud(account, amount, rows, config, now).reason == Some(UNUSUAL_PATTERN) <==>
        |h| > 0 && amount > UnusualThreshold(Mean(h), config.variationPercent)
    ensures var h := Latest(rows, account.id, config.historyCount);
      var v := DetectFraud(account, amount, rows, config, now);
      v.reason == Some(UNUSUAL_PATTERN) ==> v.description == Some(AmountAboveAverage(amount, Mean(h)))
    ensures var h := Latest(rows, account.id, config.historyCount);
      |h| > 0 && amount == UnusualThreshold(Mean(h), config.variationPercent) ==>
        DetectFraud(account, amount, rows, config, now).reason != Some(UNUSUAL_PATTERN)
  {
  }

  /** For an account that is not suspicious the verdict is clean exactly when
      neither history rule fires: there is no history, or the amount is within
      the threshold and the window holds no more than `invoicesCount` rows. */
  lemma CleanIff(account: Account, amount: real, rows: seq<Invoice>, config: Config, now: Timestamp)
    requires !account.isSuspicious
    ensures var h := Latest(rows, account.id, config.historyCount);
      var w := CreatedSince(rows, account.id, WindowStart(now, config.timeframeHours));
      DetectFraud(account, amount, rows, config, now) == Clean <==>
        !(|h| > 0 && (amount > UnusualThreshold(Mean(h), config.variationPercent) || |w| > config.invoicesCount))
  {
  }

  /** With a history count of 0 no history is read, so an account that is not
      suspicious is clean whatever the table holds. */
  lemma NoHistoryCountIsClean(account: Account, amount: real, rows: seq<Invoice>, config: Config, now: Timestamp)
    requires config.historyCount == 0 && !account.isSuspicious
    ensures DetectFraud(account, amount, rows, config, now) == Clean
  {
  }

  /** The threshold is the average times (2 + variation/100). */
  lemma ThresholdIsMultiple(average: real, variationPercent: real)
    ensures UnusualThreshold(average, variationPercent) == average * (2.0 + variationPercent / 100.0)
    ensures variationPercent >= 0.0 && average >= 0.0 ==> UnusualThreshold(average, variationPercent) >= 2.0 * average
  {
  }

  /** The trailing-window rule fires exactly when the account has history, the
      unusual-amount rule did not fire, and more than `invoicesCount` of the
      account's invoices were created at or after the window start. */
  lemma FrequentHighValueIff(account: Account, amount: real, rows: seq<Invoice>, config: Config, now: Timestamp)
    requires !account.isSuspicious
    ensures var h := Latest(rows, account.id, config.historyCount);
      var w := CreatedSince(rows, account.id, WindowStart(now, config.timeframeHours));
      var v := DetectFraud(account, amount, rows, config, now);
      && (v.reason == Some(FREQUENT_HIGH_VALUE) <==>
            && |h| > 0
            && amount <= UnusualThreshold(Mean(h), config.variationPercent)
            && |w| > config.invoicesCount)
      && (forall i | 0 <= i < |w| ::
            w[i].accountId == account.id && w[i].createdAt >= now - config.timeframeHours * MillisPerHour)
      && (forall x :: multiset(w)[x] ==
            if x.accountId == account.id && x.createdAt >= WindowStart(now, config.timeframeHours)
            then multiset(rows)[x] else 0)
  {
  }

  /** One rule of the chain taken on its own: the verdict it gives when it matches. */
  datatype Rule = SuspiciousAccountRule | UnusualAmountRule | FrequentHighValueRule

  /** The reason each rule reports. */
  function RuleReason(rule: Rule): FraudReason
  {
    match rule
    case SuspiciousAccountRule => SUSPICIOUS_ACCOUNT
    case UnusualAmountRule => UNUSUAL_PATTERN
    case FrequentHighValueRule => FREQUENT_HIGH_VALUE
  }

  function RuleVerdict(rule: Rule, account: Account, amount: real, rows: seq<Invoice>, config: Config, now: Timestamp): (m: Option<Verdict>)
    ensures m.Some? ==> m.value.hasFraud && m.value.reason == Some(RuleReason(rule)) && m.value.description.Some?
    ensures rule == SuspiciousAccountRule ==> (m.Some? <==> account.isSuspicious)
  {
    match rule
    case SuspiciousAccountRule =>
      if account.isSuspicious then Some(SuspiciousVerdict) else None
    case UnusualAmountRule =>
      var previous := Latest(rows, account.id, config.historyCount);
      if |previous| > 0 && amount > UnusualThreshold(Mean(previous), config.variationPercent) then
        Some(Verdict(true, Some(UNUSUAL_PATTERN), Some(AmountAboveAverage(amount, Mean(previous)))))
      else None
    case FrequentHighValueRule =>
      var recent := CreatedSince(rows, account.id, WindowStart(now, config.timeframeHours));
      if |recent| > config.invoicesCount then
        Some(Verdict(true, Some(FREQUENT_HIGH_VALUE), Some(TooManyRecentInvoices(account.id))))
      else None
  }

  /** The verdict of the first rule in `rules` that matches, or the clean verdict. */
  function FirstMatch(rules: seq<Rule>, account: Account, amount: real, rows: seq<Invoice>, config: Config, now: Timestamp): (v: Verdict)
    ensures v.hasFraud <==> exists i | 0 <= i < |rules| :: RuleVerdict(rules[i], account, amount, rows, config, now).Some?
    ensures v.hasFraud ==> exists i | 0 <= i < |rules| ::
      && RuleVerdict(rules[i], account, amount, rows, config, now) == Some(v)
      && forall j | 0 <= j < i :: RuleVerdict(rules[j], account, amount, rows, config, now).None?
    ensures !v.hasFraud ==> v == Clean
  {
    if rules == [] then Clean
    else
      match RuleVerdict(rules[0], account, amount, rows, config, now)
      case Some(m) => m
      case None =>
        var v := FirstMatch(rules[1..], account, amount, rows, config, now);
        FirstMatchSkip(rules, (r: Rule) => RuleVerdict(r, account, amount, rows, config, now), v);
        v
  }

  /** A first rule that does not match can be skipped: the first match over
      the remaining rules is the first match over all of them. Stated for any
      verdict function `outcome` of the rules. */
  lemma FirstMatchSkip(rules: seq<Rule>, outcome: Rule -> Option<Verdict>, v: Verdict)
    requires rules != [] && outcome(rules[0]).None?
    requires v.hasFraud <==> exists i | 0 <= i < |rules[1..]| :: outcome(rules[1..][i]).Some?
    requires v.hasFraud ==> exists i | 0 <= i < |rules[1..]| ::
      outcome(rules[1..][i]) == Some(v) && forall j | 0 <= j < i :: outcome(rules[1..][j]).None?
    ensures v.hasFraud <==> exists i | 0 <= i < |rules| :: outcome(rules[i]).Some?
    ensures v.hasFraud ==> exists i | 0 <= i < |rules| ::
      outcome(rules[i]) == Some(v) && forall j | 0 <= j < i :: outcome(rules[j]).None?
  {
    var tail := rules[1..];
    if exists i | 0 <= i < |rules| :: outcome(rules[i]).Some? {
      var i :| 0 <= i < |rules| && outcome(rules[i]).Some?;
      assert i > 0 && tail[i - 1] == rules[i];
    }
    if v.hasFraud {
      var k :| 0 <= k < |tail| && outcome(tail[k]) == Some(v) && forall j | 0 <= j < k :: outcome(tail[j]).None?;
      assert rules[k + 1] == tail[k];
      forall j | 0 <= j < k + 1 ensures outcome(rules[j]).None? {
        if j > 0 {
          assert rules[j] == tail[j - 1];
        }
      }
    }
  }

  const PriorityOrder: seq<Rule> := [SuspiciousAccountRule, UnusualAmountRule, FrequentHighValueRule]

  /** With a positive history count and a non-negative threshold the chain is
      the first match over suspicious account, unusual amount, frequent
      invoices, each rule taken on its own. */
  lemma DetectFraudIsFirstMatch(account: Account, amount: real, rows: seq<Invoice>, config: Config, now: Timestamp)
    requires config.historyCount > 0 && config.invoicesCount >= 0
    ensures DetectFraud(account, amount, rows, config, now) == FirstMatch(PriorityOrder, account, amount, rows, config, now)
  {
    PriorityOrderUnfolded(account, amount, rows, config, now);
    var v := DetectFraud(account, amount, rows, config, now);
    var u := RuleVerdict(UnusualAmountRule, account, amount, rows, config, now);
    var f := RuleVerdict(FrequentHighValueRule, account, amount, rows, config, now);
    if !account.isSuspicious {
      var h := Latest(rows, account.id, config.historyCount);
      if |h| == 0 {
        NoHistoryNoWindow(rows, account.id, config.historyCount, WindowStart(now, config.timeframeHours));
        assert u.None? && f.None? && v == Clean;
      } else if amount > UnusualThreshold(Mean(h), config.variationPercent) {
        assert u == Some(v);
      } else {
        assert u.None? && (if f.Some? then f.value else Clean) == v;
      }
    }
  }

  /** The first match over the three rules, written out rule by rule. */
  lemma PriorityOrderUnfolded(account: Account, amount: real, rows: seq<Invoice>, config: Config, now: Timestamp)
    ensures var s := RuleVerdict(SuspiciousAccountRule, account, amount, rows, config, now);
      var u := RuleVerdict(UnusualAmountRule, account, amount, rows, config, now);
      var f := RuleVerdict(FrequentHighValueRule, account, amount, rows, config, now);
      FirstMatch(PriorityOrder, account, amount, rows, config, now) ==
        if s.Some? then s.value else if u.Some? then u.value else if f.Some? then f.value else Clean
  {
    var tail := PriorityOrder[1..];
    assert tail == [UnusualAmountRule, FrequentHighValueRule];
    assert tail[1..] == [FrequentHighValueRule];
    assert tail[1..][1..] == [];
    var f := RuleVerdict(FrequentHighValueRule, account, amount, rows, config, now);
    assert FirstMatch([], account, amount, rows, config, now) == Clean;
    assert FirstMatch(tail[1..], account, amount, rows, config, now) == if f.Some? then f.value else Clean;
  }

  /** With a history count of 0 the chain never reaches the window rule, while
      the window rule taken on its own still fires. */
  lemma WindowRuleNeedsHistory()
    ensures var account := Account("acc", false);
      var config := Config(0, 50.0, 24, 0);
      var rows := [Invoice("inv", "acc", 100.0, APPROVED, 0, None)];
      && DetectFraud(account, 100.0, rows, config, 0) == Clean
      && FirstMatch(PriorityOrder, account, 100.0, rows, config, 0).reason == Some(FREQUENT_HIGH_VALUE)
  {
    var account := Account("acc", false);
    var config := Config(0, 50.0, 24, 0);
    var row := Invoice("inv", "acc", 100.0, APPROVED, 0, None);
    var rows := [row];
    assert rows[1..] == [];
    assert |CreatedSince(rows, "acc", WindowStart(0, 24))| == 1;
    assert RuleVerdict(UnusualAmountRule, account, 100.0, rows, config, 0).None?;
    assert PriorityOrder[1..][1..] == [FrequentHighValueRule];
  }

  /** Prior invoices of the account, all of the same amount and all inside the window. */
  ghost predicate UniformRecentHistory(rows: seq<Invoice>, accountId: AccountId, amount: real, since: Timestamp)
  {
    forall i | 0 <= i < |rows| ::
      rows[i].accountId == accountId && rows[i].amount == amount && rows[i].createdAt >= since
  }

  lemma UniformHistory(rows: seq<Invoice>, accountId: AccountId, amount: real, since: Timestamp, take: nat)
    requires UniformRecentHistory(rows, accountId, amount, since)
    ensures |Latest(rows, accountId, take)| == Min(take, |rows|)
    ensures |Latest(rows, accountId, take)| > 0 ==> Mean(Latest(rows, accountId, take)) == amount
    ensures CreatedSince(rows, accountId, since) == rows
  {
    var h := Latest(rows, accountId, take);
    OfAccountAll(rows, accountId);
    LatestSpec(rows, accountId, take);
    forall i | 0 <= i < |h| ensures h[i].amount == amount {
      assert h[i] in multiset(rows);
    }
    if |h| > 0 {
      MeanOfUniform(h, amount);
    }
    CreatedSinceAll(rows, accountId, since);
  }

  /** The average of rows that all have amount `c` is `c`. */
  lemma MeanOfUniform(s: seq<Invoice>, c: real)
    requires |s| > 0
    requires forall i | 0 <= i < |s| :: s[i].amount == c
    ensures Mean(s) == c
  {
    TotalAmountConstant(s, c);
    QuotientOfMultiple(c, |s| as real);
  }

  lemma QuotientOfMultiple(c: real, n: real)
    requires n > 0.0
    ensures (n * c) / n == c
  {
  }

  /** Three prior invoices of 100 and a variation of 50%: the threshold is
      250, so an amount of 260 is unusual, while 240 is not, nor do three
      invoices exceed a threshold of 10. */
  lemma AverageScenario(rows: seq<Invoice>, accountId: AccountId, now: Timestamp)
    requires |rows| == 3 && UniformRecentHistory(rows, accountId, 100.0, WindowStart(now, 24))
    ensures DetectFraud(Account(accountId, false), 260.0, rows, Config(10, 50.0, 24, 10), now) ==
      Verdict(true, Some(UNUSUAL_PATTERN), Some(AmountAboveAverage(260.0, 100.0)))
    ensures DetectFraud(Account(accountId, false), 240.0, rows, Config(10, 50.0, 24, 10), now) == Clean
  {
    UniformHistory(rows, accountId, 100.0, WindowStart(now, 24), 10);
  }

  /** Eleven invoices of 100 inside the window and a threshold of 10: an
      amount of 100 is not unusual, and the window rule fires. */
  lemma FrequentScenario(rows: seq<Invoice>, accountId: AccountId, now: Timestamp)
    requires |rows| == 11 && UniformRecentHistory(rows, accountId, 100.0, WindowStart(now, 24))
    ensures DetectFraud(Account(accountId, false), 100.0, rows, Config(10, 50.0, 24, 10), now) ==
      Verdict(true, Some(FREQUENT_HIGH_VALUE), Some(TooManyRecentInvoices(accountId)))
  {
    UniformHistory(rows, accountId, 100.0, WindowStart(now, 24), 10);
  }
}
