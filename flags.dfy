/** Class-list flags over ordered element collections.
    A page's collection of elements that share a CSS class (`.option`,
    `.accordion-item`, `.podcast-play`, ...) is modelled as a sequence of
    booleans, one per element in document order, saying whether the element's
    class list holds the flag (`selected`, `active`, `playing`). */
module Flags {

  datatype Option<+T> = None | Some(value: T)

  /** The flags after every element loses the class and element k gains it. */
  function OnlyAt(n: nat, k: nat): seq<bool>
  {
    seq(n, j => j == k)
  }

  /** The flags after every element loses the class. */
  function NoneSet(n: nat): seq<bool>
  {
    seq(n, j => false)
  }

  /** No two elements of the collection carry the flag. */
  predicate AtMostOne(s: seq<bool>)
  {
    forall i, j :: 0 <= i < |s| && 0 <= j < |s| && s[i] && s[j] ==> i == j
  }

  /** The number of elements carrying the flag (a `querySelectorAll(...).length`). */
  function CountTrue(s: seq<bool>): (n: nat)
    ensures n <= |s|
  {
    if s == [] then 0 else CountTrue(s[..|s| - 1]) + (if s[|s| - 1] then 1 else 0)
  }

  /** A collection with at most one flagged element counts at most one. */
  lemma {:induction false} AtMostOneCount(s: seq<bool>)
    requires AtMostOne(s)
    ensures CountTrue(s) == (if true in s then 1 else 0)
  {
    if s != [] {
      var init := s[..|s| - 1];
      assert AtMostOne(init);
      AtMostOneCount(init);
      if s[|s| - 1] {
        assert true !in init by {
          forall i | 0 <= i < |init| ensures !init[i] {
            assert s[i] ==> i == |s| - 1;
          }
        }
      }
      assert true in s <==> true in init || s[|s| - 1] by {
        assert s == init + [s[|s| - 1]];
      }
    }
  }

  /** After OnlyAt, element k and no other carries the flag. */
  lemma OnlyAtExclusive(n: nat, k: nat)
    requires k < n
    ensures AtMostOne(OnlyAt(n, k)) && OnlyAt(n, k)[k] && true in OnlyAt(n, k)
    ensures forall j :: 0 <= j < n && OnlyAt(n, k)[j] ==> j == k
  {
  }
}
