/** Types shared by every module of the model. */
module Prelude {

  datatype Option<+T> = None | Some(value: T)

  function Max(a: int, b: int): int {
    if a >= b then a else b
  }

  /** A subset is no larger. */
  lemma {:induction false} SubsetSize<T>(small: set<T>, big: set<T>)
    requires small <= big
    ensures |small| <= |big|
    decreases small
  {
    if small != {} {
      var x :| x in small;
      SubsetSize(small - {x}, big - {x});
    }
  }

  /** A number above all the given ones. */
  lemma {:induction false} Above(numbers: set<nat>) returns (n: nat)
    ensures forall k :: k in numbers ==> k < n
    decreases numbers
  {
    if numbers == {} {
      n := 0;
    } else {
      var k :| k in numbers;
      var above := Above(numbers - {k});
      n := if above > k then above else k + 1;
      assert forall x :: x in numbers ==> x == k || x in numbers - {k};
    }
  }
}
