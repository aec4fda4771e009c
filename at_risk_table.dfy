/**
 * The accounts table of the customer-success page: a sortable copy of the
 * accounts, the column-header sort toggle, the health badge colour and the
 * risk-reason labels.
 */
module AtRiskTable {
  import opened Common
  import opened CustomerHealth

  /** The sortable columns: 'name', 'health_score' and 'mrr'. */
  datatype Column = Name | HealthScore | Mrr

  datatype Direction = Ascending | Descending

  datatype SortConfig = SortConfig(key: Column, direction: Direction)

  /** The initial sort: health score, ascending. */
  const InitialSort: SortConfig := SortConfig(HealthScore, Ascending)

  /** JavaScript `<` on strings: lexicographic by character, a proper prefix first. */
  predicate StrLt(a: string, b: string)
    decreases |a|
  {
    b != [] && (a == [] || a[0] < b[0] || (a[0] == b[0] && StrLt(a[1..], b[1..])))
  }

  lemma {:induction false} StrLtIrreflexive(a: string)
    ensures !StrLt(a, a)
    decreases |a|
  {
    if a != [] {
      StrLtIrreflexive(a[1..]);
    }
  }

  lemma {:induction false} StrLtTransitive(a: string, b: string, c: string)
    requires StrLt(a, b) && StrLt(b, c)
    ensures StrLt(a, c)
    decreases |a|
  {
    if a != [] && a[0] == b[0] && b[0] == c[0] {
      StrLtTransitive(a[1..], b[1..], c[1..]);
    }
  }

  lemma {:induction false} StrLtTotal(a: string, b: string)
    ensures a == b || StrLt(a, b) || StrLt(b, a)
    decreases |a|
  {
    if a != [] && b != [] && a[0] == b[0] {
      StrLtTotal(a[1..], b[1..]);
      if a[1..] == b[1..] {
        assert a == [a[0]] + a[1..] && b == [b[0]] + b[1..];
      }
    }
  }

  /** `a[key] < b[key]` for the column's field. */
  predicate KeyLt(x: Account, y: Account, key: Column)
  {
    match key
    case Name => StrLt(x.name, y.name)
    case HealthScore => x.healthScore < y.healthScore
    case Mrr => x.mrr < y.mrr
  }

  /** The comparator handed to `sort`: negative when x goes first. */
  function Compare(x: Account, y: Account, config: SortConfig): (c: int)
    ensures -1 <= c <= 1
    ensures c == 0 <==> !KeyLt(x, y, config.key) && !KeyLt(y, x, config.key)
    ensures c < 0 <==> if config.direction == Ascending then KeyLt(x, y, config.key) else KeyLt(y, x, config.key)
  {
    KeyLtStrict(x, y, x, config.key);
    if KeyLt(x, y, config.key) then (if config.direction == Ascending then -1 else 1)
    else if KeyLt(y, x, config.key) then (if config.direction == Ascending then 1 else -1)
    else 0
  }

  /** No account is below itself, and the key order is transitive and asymmetric. */
  lemma KeyLtStrict(x: Account, y: Account, z: Account, key: Column)
    ensures !KeyLt(x, x, key)
    ensures KeyLt(x, y, key) && KeyLt(y, z, key) ==> KeyLt(x, z, key)
    ensures !(KeyLt(x, y, key) && KeyLt(y, x, key))
  {
    if key == Name {
      StrLtIrreflexive(x.name);
      if StrLt(x.name, y.name) && StrLt(y.name, z.name) {
        StrLtTransitive(x.name, y.name, z.name);
      }
      if StrLt(x.name, y.name) && StrLt(y.name, x.name) {
        StrLtTransitive(x.name, y.name, x.name);
      }
    }
  }

  /** Not being below is transitive too, because the key order is total. */
  lemma KeyNotLtTransitive(x: Account, y: Account, z: Account, key: Column)
    requires !KeyLt(y, x, key) && !KeyLt(z, y, key)
    ensures !KeyLt(z, x, key)
  {
    if key == Name {
      StrLtTotal(x.name, y.name);
      StrLtTotal(y.name, z.name);
      StrLtIrreflexive(x.name);
      if StrLt(x.name, y.name) && StrLt(y.name, z.name) {
        StrLtTransitive(x.name, y.name, z.name);
      }
      if StrLt(z.name, x.name) {
        if StrLt(x.name, z.name) {
          StrLtTransitive(x.name, z.name, x.name);
        }
      }
    }
  }

  /**
   * The comparator is consistent, as `sort` requires: swapping the
   * arguments negates it, and "goes no later than" is transitive.
   */
  lemma CompareConsistent(x: Account, y: Account, z: Account, config: SortConfig)
    ensures Compare(x, y, config) == -Compare(y, x, config)
    ensures Compare(x, y, config) <= 0 && Compare(y, z, config) <= 0 ==> Compare(x, z, config) <= 0
  {
    KeyLtStrict(x, y, z, config.key);
    KeyLtStrict(z, y, x, config.key);
    KeyLtStrict(y, x, z, config.key);
    if Compare(x, y, config) <= 0 && Compare(y, z, config) <= 0 {
      if config.direction == Ascending {
        KeyNotLtTransitive(x, y, z, config.key);
      } else {
        KeyNotLtTransitive(z, y, x, config.key);
      }
    }
  }

  /** Ordered as the comparator wants: no account goes after a later one. */
  predicate Sorted(s: seq<Account>, config: SortConfig)
  {
    forall i, j :: 0 <= i < j < |s| ==> Compare(s[i], s[j], config) <= 0
  }

  /** The first n accounts are in order. */
  predicate SortedPrefix(s: seq<Account>, n: int, config: SortConfig)
    requires 0 <= n <= |s|
  {
    forall k, l :: 0 <= k < l < n ==> Compare(s[k], s[l], config) <= 0
  }

  /**
   * Sorted ascending the column never decreases down the list; sorted
   * descending it never increases.
   */
  lemma SortedMeansMonotone(s: seq<Account>, config: SortConfig, i: nat, j: nat)
    requires Sorted(s, config) && i < j < |s|
    ensures config.direction == Ascending ==> !KeyLt(s[j], s[i], config.key)
    ensures config.direction == Descending ==> !KeyLt(s[i], s[j], config.key)
    ensures config == SortConfig(HealthScore, Ascending) ==> s[i].healthScore <= s[j].healthScore
    ensures config == SortConfig(HealthScore, Descending) ==> s[i].healthScore >= s[j].healthScore
    ensures config == SortConfig(Mrr, Ascending) ==> s[i].mrr <= s[j].mrr
    ensures config == SortConfig(Mrr, Descending) ==> s[i].mrr >= s[j].mrr
  {
    KeyLtStrict(s[i], s[j], s[i], config.key);
  }

  /**
   * `[...accounts].sort(comparator)`: a sorted permutation of the accounts,
   * built in a fresh array so the input is left as it was.
   */
  method SortAccounts(accounts: seq<Account>, config: SortConfig) returns (sorted: seq<Account>)
    ensures multiset(sorted) == multiset(accounts)
    ensures Sorted(sorted, config)
  {
    var a := new Account[|accounts|](i requires 0 <= i < |accounts| => accounts[i]);
    assert a[..] == accounts;
    InsertionSort(a, config);
    sorted := a[..];
  }

  /** Sorts the array in place by repeated insertion. */
  method InsertionSort(a: array<Account>, config: SortConfig)
    modifies a
    ensures multiset(a[..]) == multiset(old(a[..]))
    ensures Sorted(a[..], config)
  {
    var i := 0;
    while i < a.Length
      invariant 0 <= i <= a.Length
      invariant multiset(a[..]) == multiset(old(a[..]))
      invariant SortedPrefix(a[..], i, config)
    {
      InsertLast(a, i, config);
      i := i + 1;
    }
  }

  /** Moves a[i] down past every element that must come after it. */
  method InsertLast(a: array<Account>, i: int, config: SortConfig)
    requires 0 <= i < a.Length
    requires SortedPrefix(a[..], i, config)
    modifies a
    ensures multiset(a[..]) == multiset(old(a[..]))
    ensures SortedPrefix(a[..], i + 1, config)
  {
    var j := i;
    InsertionStart(a[..], i, config);
    while j > 0 && Compare(a[j], a[j - 1], config) < 0
      invariant 0 <= j <= i
      invariant multiset(a[..]) == multiset(old(a[..]))
      invariant Inserting(a[..], j, i, config)
    {
      SwapDown(a, j, i, config);
      j := j - 1;
    }
    InsertionDone(a[..], j, i, config);
  }

  /** Before any swap, only pairs with the new element at i may be out of order. */
  lemma InsertionStart(s: seq<Account>, i: int, config: SortConfig)
    requires 0 <= i < |s|
    requires SortedPrefix(s, i, config)
    ensures Inserting(s, i, i, config)
  {
  }

  /** Swaps the inserted element at j with its predecessor. */
  method SwapDown(a: array<Account>, j: int, i: int, config: SortConfig)
    requires 0 < j <= i < a.Length
    requires Compare(a[j], a[j - 1], config) < 0
    requires Inserting(a[..], j, i, config)
    modifies a
    ensures multiset(a[..]) == multiset(old(a[..]))
    ensures Inserting(a[..], j - 1, i, config)
  {
    ghost var s := a[..];
    a[j - 1], a[j] := a[j], a[j - 1];
    assert a[..] == s[j - 1 := s[j]][j := s[j - 1]];
    SwapStep(s, j, i, config);
    SwapPermutes(s, j);
  }

  /** Insertion of s[i] is under way and has reached position j. */
  ghost predicate Inserting(s: seq<Account>, j: int, i: int, config: SortConfig)
  {
    0 <= j <= i < |s| && SortedExcept(s, j, i, config) && BelowRest(s, j, i, config)
  }

  /** Every pair up to i is in order, except possibly those involving j. */
  ghost predicate SortedExcept(s: seq<Account>, j: int, i: int, config: SortConfig)
    requires i < |s|
  {
    forall k, l :: 0 <= k < l <= i && k != j && l != j ==> Compare(s[k], s[l], config) <= 0
  }

  /** The element at j goes strictly before every element after it, up to i. */
  ghost predicate BelowRest(s: seq<Account>, j: int, i: int, config: SortConfig)
    requires 0 <= j <= i < |s|
  {
    forall l :: j < l <= i ==> Compare(s[j], s[l], config) < 0
  }

  /** Swapping the inserted element with its predecessor moves the gap one place down. */
  lemma SwapStep(s: seq<Account>, j: int, i: int, config: SortConfig)
    requires 0 < j <= i < |s|
    requires Compare(s[j], s[j - 1], config) < 0
    requires SortedExcept(s, j, i, config) && BelowRest(s, j, i, config)
    ensures SortedExcept(s[j - 1 := s[j]][j := s[j - 1]], j - 1, i, config)
    ensures BelowRest(s[j - 1 := s[j]][j := s[j - 1]], j - 1, i, config)
  {
  }

  /** Once the inserted element is not before its predecessor, the prefix up to i is sorted. */
  lemma InsertionDone(s: seq<Account>, j: int, i: int, config: SortConfig)
    requires 0 <= j <= i < |s|
    requires j == 0 || Compare(s[j], s[j - 1], config) >= 0
    requires Inserting(s, j, i, config)
    ensures SortedPrefix(s, i + 1, config)
  {
    if j > 0 {
      CompareConsistent(s[j], s[j - 1], s[j], config);
      forall k | 0 <= k < j - 1
        ensures Compare(s[k], s[j], config) <= 0
      {
        CompareConsistent(s[k], s[j - 1], s[j], config);
      }
    }
  }

  /**
   * `requestSort(key)`: descending exactly when the same column is clicked
   * while ascending, otherwise ascending on the clicked column.
   */
  function Toggled(config: SortConfig, key: Column): (r: SortConfig)
    ensures r.key == key
    ensures r.direction == Descending <==> config == SortConfig(key, Ascending)
  {
    if config.key == key && config.direction == Ascending then SortConfig(key, Descending)
    else SortConfig(key, Ascending)
  }

  /** Clicking the same column twice reverses the direction the first click chose. */
  lemma ToggleTwiceFlips(config: SortConfig, key: Column)
    ensures Toggled(Toggled(config, key), key).key == key
    ensures Toggled(Toggled(config, key), key).direction != Toggled(config, key).direction
  {
  }

  /** The table's sort state. */
  class AccountsTable {
    var sortConfig: SortConfig

    constructor()
      ensures sortConfig == InitialSort
    {
      sortConfig := InitialSort;
    }

    method RequestSort(key: Column)
      modifies this
      ensures sortConfig == Toggled(old(sortConfig), key)
    {
      var direction := Ascending;
      if sortConfig.key == key && sortConfig.direction == Ascending {
        direction := Descending;
      }
      sortConfig := SortConfig(key, direction);
    }

    /** `sortedAccounts`: the accounts in the current order. */
    method SortedAccounts(accounts: seq<Account>) returns (sorted: seq<Account>)
      ensures multiset(sorted) == multiset(accounts)
      ensures Sorted(sorted, sortConfig)
    {
      sorted := SortAccounts(accounts, sortConfig);
    }
  }

  datatype Badge = Emerald | Amber | Red

  /** `getHealthBadge(score)`. */
  function HealthBadge(score: real): (b: Badge)
    ensures b == Emerald <==> score >= 70.0
    ensures b == Amber <==> 50.0 <= score < 70.0
    ensures b == Red <==> score < 50.0
  {
    if score >= 70.0 then Emerald
    else if score >= 50.0 then Amber
    else Red
  }

  /**
   * The class names of a badge: the three literals of `getHealthBadge`
   * share one shape, `bg-<c>-100 text-<c>-800 border-<c>-300` for the
   * badge's colour family c.
   */
  function BadgeClasses(b: Badge): (classes: string)
    ensures |classes| > 3 && classes[3] == BadgeColour(b)[0]
  {
    var c := BadgeColour(b);
    "bg-" + c + "-100 text-" + c + "-800 border-" + c + "-300"
  }

  /** The Tailwind colour family of a badge. */
  function BadgeColour(b: Badge): string
  {
    match b
    case Emerald => "emerald"
    case Amber => "amber"
    case Red => "red"
  }

  /** The three badges are drawn with three different sets of classes. */
  lemma BadgeClassesDistinct(b1: Badge, b2: Badge)
    ensures BadgeClasses(b1) == BadgeClasses(b2) <==> b1 == b2
  {
    if b1 != b2 {
      assert BadgeColour(b1)[0] != BadgeColour(b2)[0];
    }
  }

  function BadgeRank(b: Badge): nat
  {
    match b
    case Red => 0
    case Amber => 1
    case Emerald => 2
  }

  /** A higher score never gets a worse badge. */
  lemma BadgeMonotone(s1: real, s2: real)
    requires s1 <= s2
    ensures BadgeRank(HealthBadge(s1)) <= BadgeRank(HealthBadge(s2))
  {
  }

  /** An account is at risk on the page exactly when its badge is not emerald. */
  lemma AtRiskIffNotEmerald(a: Account)
    ensures IsAtRisk(a) <==> HealthBadge(a.healthScore) != Emerald
  {
  }

  /** `riskReasonText`. */
  const RiskReasonText: map<string, string> := map[
    "usage_cliff" := "Usage Cliff",
    "feature_regression" := "Feature Regression",
    "support_heat" := "Support Heat",
    "under_utilization" := "Under Utilization",
    "billing_risk" := "Billing Risk"
  ]

  /** `riskReasonText[reason] || reason`. */
  function RiskReasonLabel(reason: string): (text: string)
    ensures text == reason || (reason in RiskReasonText && text == RiskReasonText[reason])
    ensures text == "" ==> reason == ""
  {
    if reason in RiskReasonText && RiskReasonText[reason] != "" then RiskReasonText[reason] else reason
  }

  /** `account.risk_reasons?.map(reason => label)`: nothing when the list is missing. */
  function RiskReasonLabels(reasons: Option<seq<string>>): (r: seq<string>)
    ensures reasons.None? ==> r == []
    ensures reasons.Some? ==> |r| == |reasons.value|
    ensures reasons.Some? ==> forall i :: 0 <= i < |r| ==> r[i] == RiskReasonLabel(reasons.value[i])
  {
    match reasons
    case None => []
    case Some(rs) => seq(|rs|, i requires 0 <= i < |rs| => RiskReasonLabel(rs[i]))
  }

  /**
   * A known reason shows its table label, never its raw key; any other
   * reason is shown as it is.
   */
  lemma RiskReasonLabelFallback(reason: string)
    ensures reason in RiskReasonText ==> RiskReasonLabel(reason) == RiskReasonText[reason] != reason
    ensures reason !in RiskReasonText ==> RiskReasonLabel(reason) == reason
  {
    if reason in RiskReasonText {
      assert reason in {"usage_cliff", "feature_regression", "support_heat", "under_utilization", "billing_risk"};
      assert RiskReasonText[reason][0] != reason[0];
    }
  }
}
