/**
 * The counter of website/src/hooks/useCounter.ts: one integer held in React state and
 * changed by three setters. Here the state is a field of a class and each setter a
 * method on it; the value that `decreaseCounter` computes from the previous one is
 * the function `Decreased`.
 */
module CounterHook {

  /** The `decreaseCounter` update: 0 when the counter is at or below 0, one less otherwise. */
  function Decreased(prevState: int): (r: int)
    ensures r >= 0
    ensures prevState > 0 ==> r == prevState - 1
    ensures prevState <= 0 ==> r == 0
  {
    if prevState <= 0 then 0 else prevState - 1
  }

  /** Decreasing undoes an increase from any value that is not negative. */
  lemma DecreaseUndoesIncrease(v: int)
    requires v >= 0
    ensures Decreased(v + 1) == v
  {
  }

  /** Decreasing never goes further than 0: once there, the counter stays there. */
  lemma DecreaseAtZeroIsStable(v: int)
    requires v <= 0
    ensures Decreased(Decreased(v)) == 0
  {
  }

  class Counter {
    var counterValue: int

    /** `useCounter(initValue = 0)`: the counter starts at its argument. */
    constructor (initValue: int := 0)
      ensures counterValue == initValue
    {
      counterValue := initValue;
    }

    /** `resetCounter(initValue = 0)`: the counter is set to its argument. */
    method ResetCounter(initValue: int := 0)
      modifies this
      ensures counterValue == initValue
    {
      counterValue := initValue;
    }

    /** `increaseCounter()`: exactly one more. */
    method IncreaseCounter()
      modifies this
      ensures counterValue == old(counterValue) + 1
    {
      counterValue := counterValue + 1;
    }

    /** `decreaseCounter()`: one less, but never below 0. */
    method DecreaseCounter()
      modifies this
      ensures counterValue == Decreased(old(counterValue))
      ensures counterValue >= 0
    {
      if counterValue <= 0 {
        counterValue := 0;
      } else {
        counterValue := counterValue - 1;
      }
    }
  }
}
