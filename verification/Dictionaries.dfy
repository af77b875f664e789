/** The iteration order of a dictionary: its keys in the order in which they were first inserted. */
module Dictionaries {
  function KeyOrder<T(==)>(inserted: seq<T>): seq<T> {
    if inserted == [] then [] else
      var keys, last := KeyOrder(inserted[..|inserted| - 1]), inserted[|inserted| - 1];
      if last in keys then keys else keys + [last]
  }

  /** Each inserted key is listed, once. */
  lemma {:induction false} KeysAreDistinct<T>(inserted: seq<T>)
    ensures forall i, j :: 0 <= i < j < |KeyOrder(inserted)| ==> KeyOrder(inserted)[i] != KeyOrder(inserted)[j]
    ensures forall x :: x in inserted <==> x in KeyOrder(inserted)
    ensures inserted != [] ==> KeyOrder(inserted) != []
  {
    if inserted != [] {
      var rest := inserted[..|inserted| - 1];
      assert inserted == rest + [inserted[|inserted| - 1]];
      KeysAreDistinct(rest);
    }
  }

  /** `x` is inserted at position i for the first time. */
  ghost predicate FirstAt<T>(inserted: seq<T>, x: T, i: nat) {
    i < |inserted| && inserted[i] == x && x !in inserted[..i]
  }

  /** The keys are listed by their first insertion; inserting one again does not move it. */
  lemma {:induction false} KeysAreInInsertionOrder<T>(inserted: seq<T>, j: nat, k: nat, first: nat, second: nat)
    requires j < |KeyOrder(inserted)| && FirstAt(inserted, KeyOrder(inserted)[j], first)
    requires k < |KeyOrder(inserted)| && FirstAt(inserted, KeyOrder(inserted)[k], second)
    ensures j < k <==> first < second
  {
    var n := |inserted| - 1;
    var rest, last := inserted[..n], inserted[n];
    KeysAreDistinct(rest);
    assert inserted == rest + [last];
    if first < n && second < n {
      assert rest[..first] == inserted[..first] && rest[..second] == inserted[..second];
      KeysAreInInsertionOrder(rest, j, k, first, second);
    }
  }
}
