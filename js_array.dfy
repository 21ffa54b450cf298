/**
 * ECMAScript's `Array.prototype.splice` on a sequence: the start index is
 * taken from the end when negative and clamped into `0..len`, the delete
 * count is clamped into `0..len - start`, and the items are inserted at the
 * start. Only the resulting array is modelled; the panel ignores the array of
 * removed elements that `splice` returns.
 */
module JsArray {

  /** The actual start index of a splice on an array of length `len`. */
  function SpliceStart(len: nat, start: int): (k: nat)
    ensures k <= len
  {
    if start < 0 then (if len + start < 0 then 0 else len + start)
    else if start > len then len
    else start
  }

  /** The actual number of elements a splice starting at `k` deletes. */
  function SpliceDeleteCount(len: nat, k: nat, deleteCount: int): (d: nat)
    requires k <= len
    ensures k + d <= len
  {
    if deleteCount < 0 then 0
    else if deleteCount > len - k then len - k
    else deleteCount
  }

  /** The array `s` after `s.splice(start, deleteCount, ...items)`. */
  function Splice<T>(s: seq<T>, start: int, deleteCount: int, items: seq<T>): (r: seq<T>)
    ensures var k := SpliceStart(|s|, start);
            |r| == |s| - SpliceDeleteCount(|s|, k, deleteCount) + |items|
  {
    var k := SpliceStart(|s|, start);
    s[..k] + items + s[k + SpliceDeleteCount(|s|, k, deleteCount)..]
  }

  /** Splicing one item over one element inside the array replaces that element. */
  lemma SpliceReplace<T>(s: seq<T>, i: int, x: T)
    requires 0 <= i < |s|
    ensures Splice(s, i, 1, [x]) == s[i := x]
  {
    var r := Splice(s, i, 1, [x]);
    assert |r| == |s|;
    forall j | 0 <= j < |s| ensures r[j] == s[i := x][j] {
      if j < i {
        assert r[j] == s[..i][j];
      } else if j > i {
        assert r[j] == s[i + 1..][j - i - 1];
      }
    }
  }

  /** A splice that starts at or past the end deletes nothing and appends the items. */
  lemma SpliceAtEnd<T>(s: seq<T>, start: int, deleteCount: int, items: seq<T>)
    requires start >= |s|
    ensures Splice(s, start, deleteCount, items) == s + items
  {
    assert s[..|s|] == s;
    assert s[|s|..] == [];
  }

  /** Splicing nothing over one element inside the array deletes that element. */
  lemma SpliceDelete<T>(s: seq<T>, i: int)
    requires 0 <= i < |s|
    ensures Splice(s, i, 1, []) == s[..i] + s[i + 1..]
  {
  }

  /** A negative start counts from the end: `-k` deletes the element `k` from the end. */
  lemma SpliceDeleteFromEnd<T>(s: seq<T>, k: int)
    requires 1 <= k <= |s|
    ensures Splice(s, -k, 1, []) == s[..|s| - k] + s[|s| - k + 1..]
  {
  }
}
