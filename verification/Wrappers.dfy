/** Small types shared by the models. */
module Wrappers {

  datatype Option<+T> = None | Some(value: T)

  /** `Panicked` stands for a failed `unwrap` or `expect`, an index out of range or an arithmetic
      overflow. */
  datatype Outcome<+T> = Returned(value: T) | Panicked

  function Min(a: nat, b: nat): nat { if a < b then a else b }

  ghost predicate Distinct<T(!new)>(s: seq<T>)
  {
    forall i, j :: 0 <= i < j < |s| ==> s[i] != s[j]
  }

  lemma ConcatAssociative<T>(a: seq<T>, b: seq<T>, c: seq<T>)
    ensures (a + b) + c == a + (b + c)
  {
    assert (a + b) + c == a + (b + c);
  }
}
