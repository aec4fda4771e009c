/**
 * The customer-success page: the accounts below the health threshold, the
 * MRR they carry, the name search that feeds the accounts table, and the
 * counts on its cards.
 */
module CustomerHealth {
  import opened Common
  import opened Lists

  /**
   * An account as the page and its table use it; fields the page only
   * displays (segment, owner) are not part of the model.
   */
  datatype Account = Account(
    id: string,
    name: string,
    healthScore: real,
    mrr: real,
    riskReasons: Option<seq<string>>)

  /** `a.health_score < 70`. */
  predicate IsAtRisk(a: Account)
  {
    a.healthScore < 70.0
  }

  /** `accounts.filter(a => a.health_score < 70)`. */
  function AtRiskAccounts(accounts: seq<Account>): (r: seq<Account>)
    ensures forall a :: a in r <==> a in accounts && a.healthScore < 70.0
    ensures exists idx :: Embeds(idx, r, accounts)
  {
    FilterKeepsOrder(accounts, IsAtRisk);
    Filter(accounts, IsAtRisk)
  }

  /** The `mrr` of each account, in order. */
  function Mrrs(accounts: seq<Account>): (r: seq<real>)
    ensures |r| == |accounts|
    ensures forall i :: 0 <= i < |accounts| ==> r[i] == accounts[i].mrr
  {
    seq(|accounts|, i requires 0 <= i < |accounts| => accounts[i].mrr)
  }

  /** `atRiskAccounts.reduce((sum, acc) => sum + acc.mrr, 0)`. */
  function AtRiskMrr(accounts: seq<Account>): (total: real)
    ensures (forall i :: 0 <= i < |accounts| ==> !IsAtRisk(accounts[i])) ==> total == 0.0
  {
    assert (forall i :: 0 <= i < |accounts| ==> !IsAtRisk(accounts[i])) ==> AtRiskAccounts(accounts) == [] by {
      if forall i :: 0 <= i < |accounts| ==> !IsAtRisk(accounts[i]) {
        FilterNone(accounts, IsAtRisk);
      }
    }
    Sum(Mrrs(AtRiskAccounts(accounts)))
  }

  /**
   * Reference definition of the MRR at risk: every account contributes its
   * MRR when it is at risk and nothing otherwise.
   */
  function RiskWeightedMrr(accounts: seq<Account>): real
    decreases |accounts|
  {
    if accounts == [] then 0.0
    else
      var last := accounts[|accounts| - 1];
      RiskWeightedMrr(accounts[..|accounts| - 1]) + (if IsAtRisk(last) then last.mrr else 0.0)
  }

  /** The at-risk MRR is the risk-weighted sum of all accounts' MRR. */
  lemma {:induction false} AtRiskMrrIsWeightedSum(accounts: seq<Account>)
    ensures AtRiskMrr(accounts) == RiskWeightedMrr(accounts)
    decreases |accounts|
  {
    if accounts != [] {
      var init, last := accounts[..|accounts| - 1], accounts[|accounts| - 1];
      AtRiskMrrIsWeightedSum(init);
      var kept := AtRiskAccounts(init);
      var tail := if IsAtRisk(last) then [last] else [];
      assert AtRiskAccounts(accounts) == kept + tail;
      assert Mrrs(kept + tail) == Mrrs(kept) + Mrrs(tail);
      SumAppend(Mrrs(kept), Mrrs(tail));
    }
  }

  /** With non-negative MRRs the risk-weighted sum lies between 0 and the total MRR. */
  lemma {:induction false} RiskWeightedMrrBounds(accounts: seq<Account>)
    requires forall i :: 0 <= i < |accounts| ==> accounts[i].mrr >= 0.0
    ensures 0.0 <= RiskWeightedMrr(accounts) <= Sum(Mrrs(accounts))
    decreases |accounts|
  {
    if accounts != [] {
      var init, last := accounts[..|accounts| - 1], accounts[|accounts| - 1];
      RiskWeightedMrrBounds(init);
      assert Mrrs(accounts) == Mrrs(init) + [last.mrr];
      SumAppend(Mrrs(init), [last.mrr]);
    }
  }

  /** With non-negative MRRs the MRR at risk lies between 0 and the total MRR. */
  lemma AtRiskMrrBounds(accounts: seq<Account>)
    requires forall i :: 0 <= i < |accounts| ==> accounts[i].mrr >= 0.0
    ensures 0.0 <= AtRiskMrr(accounts) <= Sum(Mrrs(accounts))
  {
    AtRiskMrrIsWeightedSum(accounts);
    RiskWeightedMrrBounds(accounts);
  }

  /** The search test: the lower-cased name contains the lower-cased term. */
  function NameMatches(term: string): Account -> bool
  {
    (a: Account) => Contains(ToLower(a.name), ToLower(term))
  }

  /** `accounts.filter(a => a.name.toLowerCase().includes(term.toLowerCase()))`. */
  function SearchAccounts(accounts: seq<Account>, term: string): (r: seq<Account>)
    ensures forall a :: a in r <==> a in accounts && Contains(ToLower(a.name), ToLower(term))
    ensures exists idx :: Embeds(idx, r, accounts)
  {
    FilterKeepsOrder(accounts, NameMatches(term));
    Filter(accounts, NameMatches(term))
  }

  /** An empty search term keeps every account, in order. */
  lemma EmptySearchKeepsAll(accounts: seq<Account>)
    ensures SearchAccounts(accounts, "") == accounts
  {
    forall i | 0 <= i < |accounts|
      ensures NameMatches("")(accounts[i])
    {
      assert ToLower("") == "";
      ContainsEmpty(ToLower(accounts[i].name));
    }
    FilterAll(accounts, NameMatches(""));
  }

  /** The search ignores letter case in the term. */
  lemma SearchIgnoresTermCase(accounts: seq<Account>, t1: string, t2: string)
    requires ToLower(t1) == ToLower(t2)
    ensures SearchAccounts(accounts, t1) == SearchAccounts(accounts, t2)
  {
    assert NameMatches(t1) == NameMatches(t2);
  }

  /** The figures on the cards: total accounts and accounts at risk. */
  datatype Cards = Cards(totalAccounts: nat, accountsAtRisk: nat, mrrAtRisk: real)

  function PageCards(accounts: seq<Account>): (c: Cards)
    ensures c.accountsAtRisk <= c.totalAccounts == |accounts|
  {
    Cards(|accounts|, |AtRiskAccounts(accounts)|, AtRiskMrr(accounts))
  }

  /** Reference count: the accounts whose health is below 70, one by one. */
  function CountAtRisk(accounts: seq<Account>): (c: nat)
    ensures c <= |accounts|
    ensures c == 0 <==> forall i :: 0 <= i < |accounts| ==> !IsAtRisk(accounts[i])
    decreases |accounts|
  {
    assert forall i :: 0 <= i < |accounts| - 1 ==> accounts[..|accounts| - 1][i] == accounts[i];
    if accounts == [] then 0
    else CountAtRisk(accounts[..|accounts| - 1]) + (if IsAtRisk(accounts[|accounts| - 1]) then 1 else 0)
  }

  /** The 'Accounts at Risk' card counts each account below 70 once. */
  lemma {:induction false} AtRiskCardCounts(accounts: seq<Account>)
    ensures PageCards(accounts).accountsAtRisk == CountAtRisk(accounts)
    decreases |accounts|
  {
    if accounts != [] {
      var init, last := accounts[..|accounts| - 1], accounts[|accounts| - 1];
      AtRiskCardCounts(init);
      assert AtRiskAccounts(accounts) == AtRiskAccounts(init) + (if IsAtRisk(last) then [last] else []);
    }
  }
}
