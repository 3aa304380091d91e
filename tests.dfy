/** The cases of the `single_threaded` and `rayon` tests, as clients that
    rely only on the contracts of the two enumerators. Each returns the
    answers in the order the test asserts them. */
module Tests {
  import opened Words
  import Sequential
  import DataParallel

  /** The inputs both tests query, in order. */
  const TEST_INPUTS: seq<U32> :=
    [0, 1, 2, 9_999_999, 100_000_000, 3_000_000_004, U32_MAX - 1, U32_MAX]

  /** The answers both tests expect, in order. */
  const EXPECTED: seq<bool> := [true, false, true, false, true, true, true, false]

  method SingleThreadedCases() returns (answers: seq<bool>)
    ensures answers == EXPECTED
  {
    answers := [];
    for k := 0 to |TEST_INPUTS|
      invariant answers == EXPECTED[..k]
    {
      var r := Sequential.IsEven(TEST_INPUTS[k]);
      answers := answers + [r];
    }
  }

  /** The answers do not depend on how many cores the machine reports. */
  method RayonCases(parallelism: nat) returns (answers: seq<bool>)
    requires parallelism >= 1
    ensures answers == EXPECTED
  {
    answers := [];
    for k := 0 to |TEST_INPUTS|
      invariant answers == EXPECTED[..k]
    {
      var r := DataParallel.IsEvenRayon(TEST_INPUTS[k], parallelism);
      answers := answers + [r];
    }
  }
}
