/** Power failures. Every store to persistent memory is preceded by one `Tick`;
    when the supply is exhausted the store does not happen and the operation stops. A store that a test may skip
    counts in both cases, so a number of stores names one point of the program. */
module PowerSupply {

  /** `Mains` never fails, `Failing(n)` carries exactly `n` more stores, `Off` has failed. */
  datatype Power = Mains | Failing(stores: nat) | Off {

    /** Draw the power for one store. */
    function Tick(): Power
      requires !Off?
    {
      match this
      case Mains => Mains
      case Failing(n) => if n == 0 then Off else Failing(n - 1)
    }

    /** What is left after `count` stores. */
    function After(count: nat): Power
      requires !Off?
    {
      match this
      case Mains => Mains
      case Failing(n) => if n < count then Off else Failing(n - count)
    }
  }
}
