/**
 * BatchDataCommandType. A C# enum variable can hold any integer, so the
 * values outside the declared members are kept as `Other`.
 */
module BatchDataCommandType {

  /** The values of the enum's underlying integer, declared members first. */
  datatype CommandValue = Add | Update | Delete | Other(value: int)
  {
    /** The integer the enum member stands for (members numbered from 0). */
    function Value(): int
    {
      match this
      case Add => 0
      case Update => 1
      case Delete => 2
      case Other(n) => n
    }

    /** `Other` holds only the undeclared integers. */
    predicate WellFormed()
    {
      Other? ==> value !in {0, 1, 2}
    }
  }

  /** A BatchDataCommandType value: each integer has exactly one representation. */
  type CommandType = c: CommandValue | c.WellFormed() witness Add

  /** The cast `(BatchDataCommandType)n`. */
  function FromValue(n: int): (c: CommandType)
    ensures c.Value() == n
  {
    if n == 0 then Add else if n == 1 then Update else if n == 2 then Delete else Other(n)
  }

  /** Every enum value is the cast of its own integer. */
  lemma FromValueOfValue(c: CommandType)
    ensures FromValue(c.Value()) == c
  {
  }
}
