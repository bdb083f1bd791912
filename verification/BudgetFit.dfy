/** Finding the longest prompt below a token budget: doubling, then bisection, over
    any function that counts the tokens of a number of repeats. */
module BudgetFit {
  import opened Arithmetic
  import opened Wrappers

  datatype Error = MarginTooLarge | BaseTooLong(base: int) | CannotBracket | NotBelowBudget(measured: int)

  datatype Fitted = Fitted(measured: int, repeats: nat)

  datatype Interval = Interval(low: nat, high: nat)

  /** How far `high` may still be doubled. */
  function Room(high: nat, budget: int): nat {
    Max(0, budget * 8 - high + 1)
  }

  /** Double `high` until it is too long; give up once it passes eight budgets. */
  function Bracket(count: nat -> int, target: int, budget: int, low: nat, high: nat): (r: Result<Interval, Error>)
    requires high > 0
    ensures r.Err? ==> r == Err(CannotBracket)
    decreases Room(high, budget)
  {
    if count(high) > target then Ok(Interval(low, high))
    else if high * 2 > budget * 8 then Err(CannotBracket)
    else Bracket(count, target, budget, high, high * 2)
  }

  function Bisect(count: nat -> int, target: int, low: nat, high: nat): nat
    requires low < high
    decreases high - low
  {
    if low + 1 >= high then low
    else
      var mid := (low + high) / 2;
      if count(mid) <= target then Bisect(count, target, mid, high) else Bisect(count, target, low, mid)
  }

  lemma {:induction false} BracketEncloses(count: nat -> int, target: int, budget: int, low: nat, high: nat)
    requires low < high && count(low) <= target
    ensures var r := Bracket(count, target, budget, low, high);
      r.Ok? ==> r.value.low < r.value.high && count(r.value.low) <= target < count(r.value.high)
    decreases Room(high, budget)
  {
    if count(high) <= target && high * 2 <= budget * 8 {
      BracketEncloses(count, target, budget, high, high * 2);
    }
  }

  lemma {:induction false} BisectSplits(count: nat -> int, target: int, low: nat, high: nat)
    requires low < high && count(low) <= target < count(high)
    ensures var n := Bisect(count, target, low, high);
      low <= n < high && count(n) <= target < count(n + 1)
    decreases high - low
  {
    if low + 1 < high {
      var mid := (low + high) / 2;
      if count(mid) <= target {
        BisectSplits(count, target, mid, high);
      } else {
        BisectSplits(count, target, low, mid);
      }
    }
  }

  function Fit(count: nat -> int, budget: int, margin: int, initial: int): Result<Fitted, Error> {
    var target := budget - margin;
    if target <= 0 then Err(MarginTooLarge)
    else if count(0) > target then Err(BaseTooLong(count(0)))
    else
      match Bracket(count, target, budget, 0, Max(1, initial))
      case Err(e) => Err(e)
      case Ok(i) =>
        BracketEncloses(count, target, budget, 0, Max(1, initial));
        var n := Bisect(count, target, i.low, i.high);
        if 0 < count(n) < budget then Ok(Fitted(count(n), n)) else Err(NotBelowBudget(count(n)))
  }

  method FitContent(count: nat -> int, budget: int, margin: int, initial: int) returns (r: Result<Fitted, Error>)
    ensures r == Fit(count, budget, margin, initial)
  {
    var target := budget - margin;
    if target <= 0 {
      return Err(MarginTooLarge);
    }
    var base := count(0);
    if base > target {
      return Err(BaseTooLong(base));
    }
    var low: nat, high: nat := 0, Max(1, initial);
    while count(high) <= target
      invariant low < high && count(low) <= target
      invariant Bracket(count, target, budget, 0, Max(1, initial)) == Bracket(count, target, budget, low, high)
      decreases Room(high, budget)
    {
      low := high;
      high := high * 2;
      if high > budget * 8 {
        return Err(CannotBracket);
      }
    }
    ghost var i := Interval(low, high);
    while low + 1 < high
      invariant low < high && count(low) <= target < count(high)
      invariant i.low < i.high && Bisect(count, target, i.low, i.high) == Bisect(count, target, low, high)
      decreases high - low
    {
      var mid := (low + high) / 2;
      if count(mid) <= target {
        low := mid;
      } else {
        high := mid;
      }
    }
    var measured := count(low);
    if !(0 < measured < budget) {
      return Err(NotBelowBudget(measured));
    }
    return Ok(Fitted(measured, low));
  }

  // -------------------------------------------------------------------- results

  /** Whatever the counter does, the prompt found fits and one repeat more does not. */
  lemma FitsTightly(count: nat -> int, budget: int, margin: int, initial: int)
    ensures var r := Fit(count, budget, margin, initial);
      r.Ok? ==>
        && r.value.measured == count(r.value.repeats)
        && count(r.value.repeats) <= budget - margin < count(r.value.repeats + 1)
        && 0 < r.value.measured < budget
  {
    var target := budget - margin;
    if target > 0 && count(0) <= target {
      BracketEncloses(count, target, budget, 0, Max(1, initial));
      var b := Bracket(count, target, budget, 0, Max(1, initial));
      if b.Ok? {
        BisectSplits(count, target, b.value.low, b.value.high);
      }
    }
  }

  ghost predicate Monotone(count: nat -> int) {
    forall m: nat, n: nat :: m <= n ==> count(m) <= count(n)
  }

  /** When more repeats never cost less, exactly the numbers up to the result fit. */
  lemma FitsMaximally(count: nat -> int, budget: int, margin: int, initial: int, n: nat)
    requires Monotone(count) && Fit(count, budget, margin, initial).Ok?
    ensures count(n) <= budget - margin <==> n <= Fit(count, budget, margin, initial).value.repeats
  {
    FitsTightly(count, budget, margin, initial);
    var best := Fit(count, budget, margin, initial).value.repeats;
    if n <= best {
      assert count(n) <= count(best);
    } else {
      assert count(best + 1) <= count(n);
    }
  }

  /** The last length tried before giving up: the first doubling past four budgets. */
  function LastTried(high: nat, budget: int): (h: nat)
    requires high > 0
    ensures h >= high && h * 2 > budget * 8
    decreases Room(high, budget)
  {
    if high * 2 > budget * 8 then high else LastTried(high * 2, budget)
  }

  lemma {:induction false} BracketFailsExactly(count: nat -> int, target: int, budget: int, low: nat, high: nat)
    requires Monotone(count) && high > 0
    ensures Bracket(count, target, budget, low, high).Err? <==> count(LastTried(high, budget)) <= target
    decreases Room(high, budget)
  {
    if count(high) > target {
      assert count(high) <= count(LastTried(high, budget));
    } else if high * 2 <= budget * 8 {
      BracketFailsExactly(count, target, budget, high, high * 2);
    }
  }

  /** Bracketing fails exactly when the last length tried still fits. */
  lemma CannotBracketExactly(count: nat -> int, budget: int, margin: int, initial: int)
    requires Monotone(count)
    ensures Fit(count, budget, margin, initial) == Err(CannotBracket)
        <==> 0 < budget - margin && count(0) <= budget - margin
             && count(LastTried(Max(1, initial), budget)) <= budget - margin
  {
    BracketFailsExactly(count, budget - margin, budget, 0, Max(1, initial));
  }

  /** A tokenizer for which no prompt is negative and each repeat costs a token. */
  ghost predicate EachRepeatCosts(count: nat -> int) {
    count(0) >= 0 && forall n: nat :: count(n) + 1 <= count(n + 1)
  }

  lemma {:induction false} CostsAdd(count: nat -> int, m: nat, n: nat)
    requires EachRepeatCosts(count) && m <= n
    ensures count(m) + (n - m) <= count(n)
    decreases n
  {
    if m < n {
      CostsAdd(count, m, n - 1);
      assert count(n - 1) + 1 <= count(n - 1 + 1);
    }
  }

  lemma CostsGrow(count: nat -> int)
    requires EachRepeatCosts(count)
    ensures Monotone(count) && forall n: nat :: count(n) >= n
  {
    forall m: nat, n: nat | m <= n
      ensures count(m) <= count(n)
    {
      CostsAdd(count, m, n);
    }
    forall n: nat
      ensures count(n) >= n
    {
      CostsAdd(count, 0, n);
    }
  }

  /** When each repeat costs a token and the target is below the last length tried,
      a bracket is always found. */
  lemma BracketFound(count: nat -> int, budget: int, margin: int, initial: int)
    requires EachRepeatCosts(count) && budget - margin < LastTried(Max(1, initial), budget)
    ensures Fit(count, budget, margin, initial) != Err(CannotBracket)
  {
    CostsGrow(count);
    CannotBracketExactly(count, budget, margin, initial);
  }

  /** Whatever the tokenizer, as long as each repeat costs a token, a bracket is found:
      this is so exactly if the target is below the last length tried. */
  lemma AlwaysBrackets(budget: int, margin: int, initial: int)
    ensures (forall count: nat -> int :: EachRepeatCosts(count) ==> Fit(count, budget, margin, initial) != Err(CannotBracket))
            <==> budget - margin < LastTried(Max(1, initial), budget)
  {
    if budget - margin < LastTried(Max(1, initial), budget) {
      forall count: nat -> int | EachRepeatCosts(count)
        ensures Fit(count, budget, margin, initial) != Err(CannotBracket)
      {
        BracketFound(count, budget, margin, initial);
      }
    } else {
      var count: nat -> int := n => n;
      assert EachRepeatCosts(count);
      CannotBracketExactly(count, budget, margin, initial);
    }
  }

  /** Any margin from zero up keeps the target below it. */
  lemma MarginSuffices(budget: int, margin: int, initial: int)
    requires margin >= 0
    ensures budget - margin < LastTried(Max(1, initial), budget)
  {
  }

  /** With a margin below zero the search can give up although each repeat costs a
      token: one repeat a token, a budget of one and a target of a hundred. */
  lemma NegativeMarginExample()
    ensures EachRepeatCosts(n => n) && Fit(n => n, 1, -99, 1) == Err(CannotBracket)
  {
    var count: nat -> int := n => n;
    assert Bracket(count, 100, 1, 0, 1) == Bracket(count, 100, 1, 1, 2) == Bracket(count, 100, 1, 2, 4)
        == Bracket(count, 100, 1, 4, 8);
  }

  /** With a positive margin and prompts that are never empty, the search succeeds
      exactly when the base prompt is within the target. */
  lemma AlwaysFits(count: nat -> int, budget: int, margin: int, initial: int)
    requires EachRepeatCosts(count) && count(0) > 0 && margin > 0
    ensures Fit(count, budget, margin, initial).Ok? <==> count(0) <= budget - margin
  {
    var target := budget - margin;
    if count(0) <= target {
      MarginSuffices(budget, margin, initial);
      BracketFound(count, budget, margin, initial);
      BracketEncloses(count, target, budget, 0, Max(1, initial));
      var b := Bracket(count, target, budget, 0, Max(1, initial)).value;
      BisectSplits(count, target, b.low, b.high);
      CostsAdd(count, 0, Bisect(count, target, b.low, b.high));
    }
  }

  /** Which error there is: none of them hides another's case. */
  lemma FitErrors(count: nat -> int, budget: int, margin: int, initial: int)
    requires Monotone(count)
    ensures var r, target := Fit(count, budget, margin, initial), budget - margin;
      && (r == Err(MarginTooLarge) <==> target <= 0)
      && (r == Err(BaseTooLong(count(0))) <==> 0 < target < count(0))
      && (r == Err(CannotBracket) <==> 0 < target && count(0) <= target && count(LastTried(Max(1, initial), budget)) <= target)
      && (r.Err? && r.error.NotBelowBudget? ==>
            0 < target && count(0) <= r.error.measured <= target && !(0 < r.error.measured < budget))
  {
    var target := budget - margin;
    CannotBracketExactly(count, budget, margin, initial);
    if target > 0 && count(0) <= target {
      BracketEncloses(count, target, budget, 0, Max(1, initial));
      var b := Bracket(count, target, budget, 0, Max(1, initial));
      if b.Ok? {
        BisectSplits(count, target, b.value.low, b.value.high);
      }
    }
  }
}
