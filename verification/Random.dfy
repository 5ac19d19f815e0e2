/** The random source: any value below the bound may come back. */
module Random {

  method GetRand(maxValue: nat) returns (value: nat)
    requires maxValue > 0
    ensures value < maxValue
  {
    value :| 0 <= value < maxValue;
  }

  /** The program draws until the value differs; it needs some other value to exist. */
  method GetRandExcept(maxValue: nat, exValue: nat) returns (value: nat)
    requires maxValue > 1
    ensures value < maxValue && value != exValue
  {
    assert 0 != exValue || 1 != exValue;
    value :| 0 <= value < maxValue && value != exValue;
  }
}
