/** Small types and predicates that several modules use. */
module Shared {
  datatype Option<T> = None | Some(value: T)

  type Bytes = seq<bv8>

  predicate Distinct<T(==)>(s: seq<T>) { forall i, j | 0 <= i < j < |s| :: s[i] != s[j] }

  lemma HasMember(numbers: set<int>)
    requires numbers != {}
    ensures exists fd: int :: fd in numbers
  {
    if forall fd: int :: fd !in numbers {
      assert false;
    }
  }
}
