/**
 * The two ways the application removes one element of a list by position:
 * `splice(i, 1)` on a copy, and `filter((_, j) => j !== i)`. Both are
 * specified here once, and the filter is proved to agree with the splice.
 */
module Lists {

  /** `copy.splice(i, 1)` for an index inside the list: later elements shift down. */
  function RemoveAt<T>(s: seq<T>, i: nat): (r: seq<T>)
    requires i < |s|
    ensures |r| == |s| - 1
    ensures forall j | 0 <= j < i :: r[j] == s[j]
    ensures forall j | i <= j < |r| :: r[j] == s[j + 1]
  {
    s[..i] + s[i + 1..]
  }

  /** `copy.splice(i, 0, x)`: inserts x so that it ends up at index i. */
  function InsertAt<T>(s: seq<T>, i: nat, x: T): (r: seq<T>)
    requires i <= |s|
    ensures |r| == |s| + 1 && r[i] == x
    ensures forall j | 0 <= j < i :: r[j] == s[j]
    ensures forall j | i < j < |r| :: r[j] == s[j - 1]
  {
    s[..i] + [x] + s[i..]
  }

  /** Removal takes exactly one occurrence of the removed element out of the list. */
  lemma RemoveAtMultiset<T>(s: seq<T>, i: nat)
    requires i < |s|
    ensures multiset(RemoveAt(s, i)) + multiset{s[i]} == multiset(s)
  {
    assert s == s[..i] + [s[i]] + s[i + 1..];
  }

  /** Insertion adds exactly one occurrence of the inserted element. */
  lemma InsertAtMultiset<T>(s: seq<T>, i: nat, x: T)
    requires i <= |s|
    ensures multiset(InsertAt(s, i, x)) == multiset(s) + multiset{x}
  {
    assert s == s[..i] + s[i..];
  }

  /** Removing what was just inserted gives the list back. */
  lemma RemoveInsert<T>(s: seq<T>, i: nat, x: T)
    requires i <= |s|
    ensures RemoveAt(InsertAt(s, i, x), i) == s
  {
  }

  /** Inserting the removed element at its old place gives the list back. */
  lemma InsertRemove<T>(s: seq<T>, i: nat)
    requires i < |s|
    ensures InsertAt(RemoveAt(s, i), i, s[i]) == s
  {
  }

  /**
   * `const copy = [...s]; copy[i] = x;`: the copy-and-assign that every
   * slot update of the application performs.
   */
  method AssignAt<T>(s: seq<T>, i: nat, x: T) returns (r: seq<T>)
    requires i < |s|
    ensures |r| == |s| && r[i] == x
    ensures forall j | 0 <= j < |s| && j != i :: r[j] == s[j]
    ensures r == s[i := x]
  {
    var copy := new T[|s|](j requires 0 <= j < |s| => s[j]);
    copy[i] := x;
    r := copy[..];
  }

  /** `s.filter((_, j) => j !== k)`: keeps every element whose index is not k. */
  function WithoutIndex<T>(s: seq<T>, k: int): (r: seq<T>)
  {
    if s == [] then []
    else WithoutIndex(s[..|s| - 1], k) + (if |s| - 1 == k then [] else [s[|s| - 1]])
  }

  /**
   * The filter removes exactly the element at k when k is an index of the
   * list, and nothing otherwise (a negative or too large k matches no index).
   */
  lemma {:induction false} WithoutIndexIsRemoveAt<T>(s: seq<T>, k: int)
    ensures WithoutIndex(s, k) == if 0 <= k < |s| then RemoveAt(s, k) else s
  {
    if s != [] {
      var init := s[..|s| - 1];
      WithoutIndexIsRemoveAt(init, k);
      if 0 <= k < |s| - 1 {
        assert init[..k] == s[..k];
        assert init[k + 1..] + [s[|s| - 1]] == s[k + 1..];
        assert RemoveAt(init, k) + [s[|s| - 1]] == RemoveAt(s, k);
      } else if k == |s| - 1 {
        assert RemoveAt(s, k) == init;
      } else {
        assert init + [s[|s| - 1]] == s;
      }
    }
  }
}
