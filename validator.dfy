/** `MinTester`: a validator that accepts an integer no smaller than the
    threshold it was constructed with. */
module Validator {
  import opened Wrappers

  /** The context a tester is called with: the whole input and the path of
      keys to the value under test. `MinTester` ignores it. */
  datatype Context = Context(origin: Option<string>, keys: seq<string>)

  /** `new MinTester($min)`: the threshold is fixed at construction. */
  datatype MinTester = MinTester(min: int) {
    /** `test($data, $origin, $keys)`. */
    predicate Test(data: int, context: Context) {
      data >= min
    }
  }

  /** The threshold itself passes, and the value just below it fails. */
  lemma TestBoundary(min: int, context: Context)
    ensures MinTester(min).Test(min, context)
    ensures !MinTester(min).Test(min - 1, context)
  {
  }

  /** Acceptance is upward closed. */
  lemma TestMonotone(t: MinTester, d: int, d': int, context: Context)
    requires t.Test(d, context) && d <= d'
    ensures t.Test(d', context)
  {
  }

  /** A higher threshold accepts fewer values. */
  lemma TestAntitone(min: int, min': int, data: int, context: Context)
    requires min <= min' && MinTester(min').Test(data, context)
    ensures MinTester(min).Test(data, context)
  {
  }

  /** The result does not depend on the origin or the keys. */
  lemma TestIgnoresContext(t: MinTester, data: int, c: Context, c': Context)
    ensures t.Test(data, c) == t.Test(data, c')
  {
  }
}
