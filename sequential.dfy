/** The single-threaded reference enumerator `is_even`. */
module Sequential {
  import opened Words

  /** Walks 0, 2, 4, ... with overflow-checked addition, raising `even` when
      the walk meets `num`; the walk stops when the next addition overflows. */
  method IsEven(num: U32) returns (even: bool)
    ensures even <==> num % 2 == 0
  {
    even := false;
    var knownEven: Option<U32> := Some(0);
    while knownEven.Some?
      invariant knownEven.Some? ==> knownEven.value % 2 == 0 && knownEven.value <= U32_MAX - 1
      invariant even <==> EvenIn(num, 0, if knownEven.Some? then knownEven.value else U32_MODULUS)
      decreases if knownEven.Some? then U32_MODULUS - knownEven.value else 0
    {
      var known := knownEven.value;
      if num == known {
        even := true;
      }
      knownEven := CheckedAdd(known, 2);
      WalkEndsByOverflow(known);
    }
  }

  /** The walk of even values ends exactly after `u32::MAX - 1`, by overflow;
      a wrapping addition there would restart the walk at 0. */
  lemma WalkEndsByOverflow(known: U32)
    requires known % 2 == 0
    ensures CheckedAdd(known, 2).None? <==> known == U32_MAX - 1
    ensures known == U32_MAX - 1 ==> WrappingAdd(known, 2) == 0
  {
    CheckedAddAgreesWithWrapping(known, 2);
  }
}
