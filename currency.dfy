/**
 * The INR to USD display conversion the dashboards apply to a copy of a
 * KPI or trend record, and the overrides written after it.
 */
module Currency {
  import opened Common
  import opened Grouping

  const IntegrationInProgress: string := "Integration In Progress"

  /** The money KPIs, converted together with their `_target` keys. */
  const CurrencyKeys: seq<string> := ["live_mrr", "live_arr", "contracted_mrr", "contracted_arr"]

  /** The money columns of a trend row. */
  const TrendCurrencyKeys: seq<string> := ["live_arr", "contracted_arr", "target_arr"]

  /** `${key}_target`. */
  function TargetKey(k: string): string
  {
    k + "_target"
  }

  function TargetKeys(ks: seq<string>): (r: seq<string>)
    ensures |r| == |ks|
    ensures forall i :: 0 <= i < |ks| ==> r[i] == TargetKey(ks[i])
  {
    seq(|ks|, i requires 0 <= i < |ks| => TargetKey(ks[i]))
  }

  /** The eight money keys are pairwise distinct. */
  lemma MoneyKeysDistinct()
    ensures Distinct(CurrencyKeys + TargetKeys(CurrencyKeys))
    ensures TargetKeys(CurrencyKeys) == ["live_mrr_target", "live_arr_target", "contracted_mrr_target", "contracted_arr_target"]
  {
    var t := TargetKeys(CurrencyKeys);
    assert t[0] == "live_mrr" + "_target" == "live_mrr_target";
    assert t[1] == "live_arr" + "_target" == "live_arr_target";
    assert t[2] == "contracted_mrr" + "_target" == "contracted_mrr_target";
    assert t[3] == "contracted_arr" + "_target" == "contracted_arr_target";
  }

  /** The i-th money key and its target key are new to the loop at step i. */
  lemma MoneyKeyFresh(i: nat)
    requires i < |CurrencyKeys|
    ensures CurrencyKeys[..i + 1] == CurrencyKeys[..i] + [CurrencyKeys[i]]
    ensures TargetKeys(CurrencyKeys)[..i + 1] == TargetKeys(CurrencyKeys)[..i] + [TargetKey(CurrencyKeys[i])]
    ensures CurrencyKeys[i] !in CurrencyKeys[..i] && CurrencyKeys[i] !in TargetKeys(CurrencyKeys)
    ensures TargetKey(CurrencyKeys[i]) !in TargetKeys(CurrencyKeys)[..i] && TargetKey(CurrencyKeys[i]) !in CurrencyKeys
  {
    MoneyKeysDistinct();
    var all := CurrencyKeys + TargetKeys(CurrencyKeys);
    assert all[i] == CurrencyKeys[i] && all[|CurrencyKeys| + i] == TargetKey(CurrencyKeys[i]);
    assert forall j :: 0 <= j < |CurrencyKeys| ==> all[j] == CurrencyKeys[j];
    assert forall j :: 0 <= j < |CurrencyKeys| ==> all[|CurrencyKeys| + j] == TargetKeys(CurrencyKeys)[j];
  }

  /**
   * The USD loop over the money KPIs: each key of `CurrencyKeys` is divided
   * by the rate when present (and, unless `nullBecomesZero`, non-null; a
   * divided null is 0), and its `_target` key when present and non-null.
   * No key is added, removed or converted twice.
   */
  method ConvertCurrencyKeys(r: Record, nullBecomesZero: bool) returns (c: Record)
    ensures c.Keys == r.Keys
    ensures forall k :: k in r ==>
                 c[k] == (if k in CurrencyKeys && (nullBecomesZero || r[k] != Null) then DivRate(r[k])
                          else if k in TargetKeys(CurrencyKeys) && r[k] != Null then DivRate(r[k])
                          else r[k])
  {
    c := r;
    var i := 0;
    assert CurrencyKeys[..0] == [] && TargetKeys(CurrencyKeys)[..0] == [];
    while i < |CurrencyKeys|
      invariant 0 <= i <= |CurrencyKeys|
      invariant ConvertedPrefix(r, c, i, nullBecomesZero)
    {
      var key := CurrencyKeys[i];
      var targetKey := TargetKey(key);
      ConvertStep(r, c, i, nullBecomesZero);
      if key in c && (nullBecomesZero || c[key] != Null) {
        c := c[key := DivRate(c[key])];
      }
      if targetKey in c && c[targetKey] != Null {
        c := c[targetKey := DivRate(c[targetKey])];
      }
      i := i + 1;
    }
    assert CurrencyKeys[..i] == CurrencyKeys && TargetKeys(CurrencyKeys)[..i] == TargetKeys(CurrencyKeys);
  }

  /** c is r after the loop has handled the first i money keys and their targets. */
  ghost predicate ConvertedPrefix(r: Record, c: Record, i: nat, nullBecomesZero: bool)
    requires i <= |CurrencyKeys|
  {
    Converted(r, c, CurrencyKeys[..i], TargetKeys(CurrencyKeys)[..i], nullBecomesZero)
  }

  /** c is r with the money keys ks and the target keys ts converted. */
  ghost predicate Converted(r: Record, c: Record, ks: seq<string>, ts: seq<string>, nullBecomesZero: bool)
  {
    && c.Keys == r.Keys
    && forall k :: k in r ==>
         c[k] == (if k in ks && (nullBecomesZero || r[k] != Null) then DivRate(r[k])
                  else if k in ts && r[k] != Null then DivRate(r[k])
                  else r[k])
  }

  /** Converting a money key not handled yet (a null only when nulls become 0). */
  lemma ConvertMoneyKey(r: Record, c: Record, ks: seq<string>, ts: seq<string>, nullBecomesZero: bool, key: string)
    requires Converted(r, c, ks, ts, nullBecomesZero) && key !in ks && key !in ts
    ensures Converted(r, if key in c && (nullBecomesZero || c[key] != Null) then c[key := DivRate(c[key])] else c,
                      ks + [key], ts, nullBecomesZero)
  {
  }

  /** Converting a target key not handled yet (never a null). */
  lemma ConvertTargetKey(r: Record, c: Record, ks: seq<string>, ts: seq<string>, nullBecomesZero: bool, key: string)
    requires Converted(r, c, ks, ts, nullBecomesZero) && key !in ks && key !in ts
    ensures Converted(r, if key in c && c[key] != Null then c[key := DivRate(c[key])] else c,
                      ks, ts + [key], nullBecomesZero)
  {
  }

  /** One turn of the loop converts the i-th money key and then its target, and nothing else. */
  lemma ConvertStep(r: Record, c: Record, i: nat, nullBecomesZero: bool)
    requires i < |CurrencyKeys|
    requires ConvertedPrefix(r, c, i, nullBecomesZero)
    ensures var key, targetKey := CurrencyKeys[i], TargetKey(CurrencyKeys[i]);
            var c1 := if key in c && (nullBecomesZero || c[key] != Null) then c[key := DivRate(c[key])] else c;
            var c2 := if targetKey in c1 && c1[targetKey] != Null then c1[targetKey := DivRate(c1[targetKey])] else c1;
            ConvertedPrefix(r, c2, i + 1, nullBecomesZero)
  {
    var key, targetKey := CurrencyKeys[i], TargetKey(CurrencyKeys[i]);
    var ks, ts := CurrencyKeys[..i], TargetKeys(CurrencyKeys)[..i];
    MoneyKeyFresh(i);
    assert key !in ts by {
      assert forall j :: 0 <= j < i ==> ts[j] == TargetKeys(CurrencyKeys)[j];
    }
    assert targetKey !in ks by {
      assert forall j :: 0 <= j < i ==> ks[j] == CurrencyKeys[j];
    }
    var c1 := if key in c && (nullBecomesZero || c[key] != Null) then c[key := DivRate(c[key])] else c;
    ConvertMoneyKey(r, c, ks, ts, nullBecomesZero, key);
    ConvertTargetKey(r, c1, ks + [key], ts, nullBecomesZero, targetKey);
  }

  /**
   * `keys.forEach(key => { if (o[key] !== undefined ...) o[key] = o[key] / 84.5 })`
   * on a copy: with `convertNull` only the `!== undefined` test is made, so
   * a null becomes 0; without it nulls are kept.
   */
  method DivideKeys(r: Record, keys: seq<string>, convertNull: bool) returns (c: Record)
    requires Distinct(keys)
    ensures c.Keys == r.Keys
    ensures forall k :: k in r ==> c[k] == if k in keys && (convertNull || r[k] != Null) then DivRate(r[k]) else r[k]
  {
    c := r;
    var i := 0;
    while i < |keys|
      invariant 0 <= i <= |keys|
      invariant c.Keys == r.Keys
      invariant forall k :: k in r ==> c[k] == if k in keys[..i] && (convertNull || r[k] != Null) then DivRate(r[k]) else r[k]
    {
      var key := keys[i];
      assert key !in keys[..i];
      assert keys[..i + 1] == keys[..i] + [key];
      if key in c && (convertNull || c[key] != Null) {
        c := c[key := DivRate(c[key])];
      }
      i := i + 1;
    }
  }

  /** `keys.forEach(key => { o[key] = v })` on a copy. */
  method SetKeys(r: Record, keys: seq<string>, v: Value) returns (c: Record)
    ensures forall k :: k in c <==> k in r || k in keys
    ensures forall k :: k in c ==> c[k] == if k in keys then v else r[k]
  {
    c := r;
    var i := 0;
    while i < |keys|
      invariant 0 <= i <= |keys|
      invariant forall k :: k in c <==> k in r || k in keys[..i]
      invariant forall k :: k in c ==> c[k] == if k in keys[..i] then v else r[k]
    {
      assert keys[..i + 1] == keys[..i] + [keys[i]];
      c := c[keys[i] := v];
      i := i + 1;
    }
    assert keys[..i] == keys;
  }
}
