/** What the weight freeze guarantees: the floor-rounded shares add up, and stay close to proportional. */
module DvfWeights {
  import opened Numeric
  import opened Sums
  import opened Dvf

  /** Neither the stake total nor a scaled stake leaves the width of u128. */
  predicate NoOverflow(entries: seq<Entry>) {
    && Sum(Stakes(entries)) <= U128_MAX
    && forall e | e in entries :: e.stake * VOTE_WEIGHT_SCALE <= U128_MAX
  }

  /** `weight` is the share of `stake` in `total`, less a fraction of one unit. */
  predicate FlooredShare(weight: nat, stake: nat, total: nat) {
    total * weight <= stake * VOTE_WEIGHT_SCALE < total * weight + total
  }

  /** Every weight is its exact share rounded down, so it is less than one unit short. */
  lemma WeightIsFlooredShare(entries: seq<Entry>, i: nat)
    requires NoOverflow(entries) && i < |entries|
    requires Sum(Stakes(entries)) > 0
    ensures FlooredShare(WeightList(entries)[i], entries[i].stake, Sum(Stakes(entries)))
  {
    var total := TotalStake(entries);
    assert entries[i] in entries;
    DivisionBrackets(entries[i].stake * VOTE_WEIGHT_SCALE, total);
  }

  /**
    In every case: against a wrapped total that is not zero, the weight is the saturated product's quotient
    rounded down; against zero, it is the equal part of the scale rounded down.
  */
  lemma WeightInEveryCase(entries: seq<Entry>, i: nat)
    requires i < |entries|
    ensures var w := WeightList(entries)[i]; var total := Sum(Stakes(entries)) % U128_MODULUS;
            if total > 0 then total * w <= Min(entries[i].stake * 32_000, U128_MAX) < total * w + total
            else |entries| * w <= 32_000 < |entries| * w + |entries|
  {
    var total := TotalStake(entries);
    if total > 0 {
      DivisionBrackets(SaturatingMul(entries[i].stake, VOTE_WEIGHT_SCALE), total);
    } else {
      DivisionBrackets(VOTE_WEIGHT_SCALE, |entries|);
    }
  }

  /** A larger stake never gets a smaller weight. */
  lemma WeightMonotone(entries: seq<Entry>, i: nat, k: nat)
    requires i < |entries| && k < |entries|
    requires entries[i].stake <= entries[k].stake
    ensures WeightList(entries)[i] <= WeightList(entries)[k]
  {
    var total := TotalStake(entries);
    if total > 0 {
      DivisionMonotone(SaturatingMul(entries[i].stake, VOTE_WEIGHT_SCALE),
                       SaturatingMul(entries[k].stake, VOTE_WEIGHT_SCALE), total);
    }
  }

  /** Floored shares, summed: at most the exact sum, and less than one unit per entry below it. */
  lemma {:induction false} FlooredSum(weights: seq<nat>, stakes: seq<nat>, total: nat)
    requires |weights| == |stakes|
    requires forall i | 0 <= i < |weights| :: FlooredShare(weights[i], stakes[i], total)
    ensures total * Sum(weights) <= VOTE_WEIGHT_SCALE * Sum(stakes)
    ensures VOTE_WEIGHT_SCALE * Sum(stakes) <= total * Sum(weights) + |weights| * total - |weights|
  {
    if weights != [] {
      var n := |weights| - 1;
      FlooredSum(weights[..n], stakes[..n], total);
      assert FlooredShare(weights[n], stakes[n], total);
      FlooredSumStep(total, Sum(weights[..n]), Sum(stakes[..n]), weights[n], stakes[n], n);
    }
  }

  lemma FlooredSumStep(total: nat, sum: nat, stakes: nat, weight: nat, stake: nat, n: nat)
    requires total * sum <= VOTE_WEIGHT_SCALE * stakes <= total * sum + n * total - n
    requires FlooredShare(weight, stake, total)
    ensures total * (sum + weight) <= VOTE_WEIGHT_SCALE * (stakes + stake)
    ensures VOTE_WEIGHT_SCALE * (stakes + stake) <= total * (sum + weight) + (n + 1) * total - (n + 1)
  {
    assert total * (sum + weight) == total * sum + total * weight;
    assert (n + 1) * total == n * total + total;
  }

  lemma TotalFromSum(total: nat, sum: nat, n: nat)
    requires 0 < total && 0 < n
    requires total * sum <= VOTE_WEIGHT_SCALE * total <= total * sum + n * total - n
    ensures VOTE_WEIGHT_SCALE - n < sum <= VOTE_WEIGHT_SCALE
  {
    assert total * (sum + n) == total * sum + n * total;
    MulCancel(total, sum, VOTE_WEIGHT_SCALE + 1);
    MulCancel(total, VOTE_WEIGHT_SCALE, sum + n);
  }

  /** Floor rounding loses less than one unit per entry, whether stakes are weighed or split equally. */
  lemma TotalWeightBounds(entries: seq<Entry>)
    requires NoOverflow(entries) && entries != []
    ensures Sum(WeightList(entries)) == FrozenTotal(entries)
    ensures VOTE_WEIGHT_SCALE - (|entries| - 1) <= FrozenTotal(entries) <= VOTE_WEIGHT_SCALE
  {
    var n, total, weights := |entries|, Sum(Stakes(entries)), WeightList(entries);
    var sum := Sum(weights);
    if total > 0 {
      forall i | 0 <= i < n ensures FlooredShare(weights[i], Stakes(entries)[i], total) {
        WeightIsFlooredShare(entries, i);
      }
      FlooredSum(weights, Stakes(entries), total);
      TotalFromSum(total, sum, n);
    } else {
      SumConstant(weights, VOTE_WEIGHT_SCALE / n);
      DivisionBrackets(VOTE_WEIGHT_SCALE, n);
    }
  }

  // ----- the stored map against the stored total

  /** What the stored map loses to later entries of the same account. */
  function Lost(keys: seq<AccountId>, values: seq<nat>): nat
    requires |keys| == |values|
  {
    if keys == [] then 0
    else
      var n := |keys| - 1;
      Lost(keys[..n], values[..n]) + At(InsertAll(keys[..n], values[..n]), keys[n])
  }

  lemma {:induction false} InsertAllSum(keys: seq<AccountId>, values: seq<nat>)
    requires |keys| == |values|
    ensures InsertAll(keys, values).Keys == Elements(keys)
    ensures SumOver(InsertAll(keys, values), InsertAll(keys, values).Keys) + Lost(keys, values) == Sum(values)
  {
    if keys == [] {
      assert Elements(keys) == {};
    } else {
      var n := |keys| - 1;
      InsertAllSum(keys[..n], values[..n]);
      assert Elements(keys) == Elements(keys[..n]) + {keys[n]};
      SumOverUpdate(InsertAll(keys[..n], values[..n]), keys[n], values[n]);
    }
  }

  predicate LastAt(keys: seq<AccountId>, i: nat)
    requires i < |keys|
  {
    forall k | i < k < |keys| :: keys[k] != keys[i]
  }

  /** The map stores the value of the last entry of an account. */
  lemma {:induction false} InsertAllLast(keys: seq<AccountId>, values: seq<nat>, i: nat)
    requires |keys| == |values| && i < |keys| && LastAt(keys, i)
    ensures keys[i] in InsertAll(keys, values) && InsertAll(keys, values)[keys[i]] == values[i]
  {
    var n := |keys| - 1;
    if i < n {
      InsertAllLast(keys[..n], values[..n], i);
    }
  }

  /** Every value that a later entry overwrites is zero. */
  predicate OverwritesOnlyZero(keys: seq<AccountId>, values: seq<nat>)
    requires |keys| == |values|
  {
    forall i, k | 0 <= i < k < |keys| && keys[i] == keys[k] :: values[i] == 0
  }

  lemma {:induction false} LastOccurrence(keys: seq<AccountId>, key: AccountId) returns (i: nat)
    requires key in keys
    ensures i < |keys| && keys[i] == key && LastAt(keys, i)
  {
    var n := |keys| - 1;
    if keys[n] == key {
      i := n;
    } else {
      assert keys == keys[..n] + [keys[n]];
      i := LastOccurrence(keys[..n], key);
      assert forall k | i < k < n :: keys[..n][k] == keys[k];
    }
  }

  /** The value the map holds for a key is zero exactly when all its entries are, if only zeros were overwritten. */
  lemma StoredZero(keys: seq<AccountId>, values: seq<nat>, key: AccountId)
    requires |keys| == |values| && OverwritesOnlyZero(keys, values)
    ensures At(InsertAll(keys, values), key) == 0 <==> forall i | 0 <= i < |keys| && keys[i] == key :: values[i] == 0
  {
    InsertAllSum(keys, values);
    if key in keys {
      var last := LastOccurrence(keys, key);
      InsertAllLast(keys, values, last);
      assert forall i | 0 <= i < |keys| && keys[i] == key && i != last :: i < last;
    } else {
      assert key !in Elements(keys);
    }
  }

  lemma {:induction false} LostNothing(keys: seq<AccountId>, values: seq<nat>)
    requires |keys| == |values|
    ensures Lost(keys, values) == 0 <==> OverwritesOnlyZero(keys, values)
  {
    if keys != [] {
      var n := |keys| - 1;
      LostNothing(keys[..n], values[..n]);
      if OverwritesOnlyZero(keys[..n], values[..n]) {
        StoredZero(keys[..n], values[..n], keys[n]);
      }
      OverwritesSnoc(keys, values);
    }
  }

  lemma OverwritesSnoc(keys: seq<AccountId>, values: seq<nat>)
    requires |keys| == |values| && keys != []
    ensures var n := |keys| - 1;
            OverwritesOnlyZero(keys, values) <==>
            && OverwritesOnlyZero(keys[..n], values[..n])
            && forall i | 0 <= i < n && keys[..n][i] == keys[n] :: values[..n][i] == 0
  {
    var n := |keys| - 1;
    var front, vfront := keys[..n], values[..n];
    assert forall i | 0 <= i < n :: front[i] == keys[i] && vfront[i] == values[i];
    if OverwritesOnlyZero(keys, values) {
      forall i, k | 0 <= i < k < n && front[i] == front[k] ensures vfront[i] == 0 {
        assert keys[i] == keys[k];
      }
    }
    if OverwritesOnlyZero(front, vfront) && forall i | 0 <= i < n && front[i] == keys[n] :: vfront[i] == 0 {
      forall i, k | 0 <= i < k < |keys| && keys[i] == keys[k] ensures values[i] == 0 {
        if k < n {
          assert front[i] == front[k];
        }
        assert vfront[i] == 0;
      }
    }
  }

  /**
    The stored total never falls short of the stored weights, and equals their sum exactly when
    no entry with a weight is overwritten by a later entry of the same account.
  */
  lemma TotalCoversWeights(entries: seq<Entry>)
    requires NoOverflow(entries)
    ensures var m := FrozenWeights(entries);
            && SumOver(m, m.Keys) <= FrozenTotal(entries)
            && (SumOver(m, m.Keys) == FrozenTotal(entries)
                <==> OverwritesOnlyZero(Accounts(entries), WeightList(entries)))
  {
    InsertAllSum(Accounts(entries), WeightList(entries));
    LostNothing(Accounts(entries), WeightList(entries));
    if entries != [] {
      TotalWeightBounds(entries);
    }
  }

  /** With distinct validators the total is the sum of the map, and each account holds its own weight. */
  lemma DistinctEntries(entries: seq<Entry>)
    requires NoOverflow(entries) && Distinct(Accounts(entries))
    ensures FrozenWeights(entries).Keys == Elements(Accounts(entries))
    ensures forall i | 0 <= i < |entries| ::
              && entries[i].account in FrozenWeights(entries)
              && FrozenWeights(entries)[entries[i].account] == WeightList(entries)[i]
    ensures SumOver(FrozenWeights(entries), FrozenWeights(entries).Keys) == FrozenTotal(entries)
  {
    var keys := Accounts(entries);
    InsertAllSum(keys, WeightList(entries));
    TotalCoversWeights(entries);
    forall i | 0 <= i < |entries|
      ensures entries[i].account in FrozenWeights(entries)
      ensures FrozenWeights(entries)[entries[i].account] == WeightList(entries)[i]
    {
      InsertAllLast(keys, WeightList(entries), i);
    }
  }
}
