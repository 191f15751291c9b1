/**
 * OnErrorAction. As with the command type, undeclared integers are kept as
 * `Other`.
 */
module OnErrorAction {

  /** The values of the enum's underlying integer, declared members first. */
  datatype ActionValue = Return | Continue | Other(value: int)
  {
    function Value(): int
    {
      match this
      case Return => 0
      case Continue => 1
      case Other(n) => n
    }

    /** `Other` holds only the undeclared integers. */
    predicate WellFormed()
    {
      Other? ==> value !in {0, 1}
    }
  }

  /** An OnErrorAction value: each integer has exactly one representation. */
  type OnErrorAction = a: ActionValue | a.WellFormed() witness Return

  /** The cast `(OnErrorAction)n`. */
  function FromValue(n: int): (a: OnErrorAction)
    ensures a.Value() == n
  {
    if n == 0 then Return else if n == 1 then Continue else Other(n)
  }

  /** Every enum value is the cast of its own integer. */
  lemma FromValueOfValue(a: OnErrorAction)
    ensures FromValue(a.Value()) == a
  {
  }
}
