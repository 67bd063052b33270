/** The JavaScript array edits used throughout the front end, on sequences:
    `splice` to insert, `filter` by index to delete, and a by-predicate
    `filter`. */
module Sequences {

  function Min(a: int, b: int): int { if a <= b then a else b }

  /** `array.splice(index, 0, x)`: inserts `x` before position `index`; an
      index past the end is clamped to the length, so the element is appended. */
  function InsertAt<T>(s: seq<T>, index: nat, x: T): (r: seq<T>)
    ensures |r| == |s| + 1
    ensures r[Min(index, |s|)] == x
    ensures forall k :: 0 <= k < Min(index, |s|) ==> r[k] == s[k]
    ensures forall k :: Min(index, |s|) < k < |r| ==> r[k] == s[k - 1]
    ensures multiset(r) == multiset(s) + multiset{x}
  {
    var p := Min(index, |s|);
    assert s == s[..p] + s[p..];
    s[..p] + [x] + s[p..]
  }

  /** An insertion at or past the end appends. */
  lemma InsertAtEnd<T>(s: seq<T>, index: nat, x: T)
    requires index >= |s|
    ensures InsertAt(s, index, x) == s + [x]
  {
    assert InsertAt(s, index, x) == s[..|s|] + [x] + s[|s|..];
  }

  /** `array.filter((_, idx) => idx !== index)` (and `splice(index, 1)` for an
      index in range): the element at `index`, if there is one, is taken out. */
  function DropIndex<T>(s: seq<T>, index: int): (r: seq<T>)
    ensures |r| == if 0 <= index < |s| then |s| - 1 else |s|
    ensures forall k :: 0 <= k < |r| ==> r[k] == if k < index || index < 0 then s[k] else s[k + 1]
    ensures 0 <= index < |s| ==> multiset(r) + multiset{s[index]} == multiset(s)
    ensures !(0 <= index < |s|) ==> r == s
  {
    if 0 <= index < |s| then
      assert s == s[..index] + [s[index]] + s[index + 1..];
      s[..index] + s[index + 1..]
    else s
  }

  /** Taking out what was just inserted gives back the original sequence. */
  lemma DropInserted<T>(s: seq<T>, index: nat, x: T)
    ensures DropIndex(InsertAt(s, index, x), Min(index, |s|)) == s
  {
    var r := DropIndex(InsertAt(s, index, x), Min(index, |s|));
    assert |r| == |s|;
    forall k | 0 <= k < |s| ensures r[k] == s[k] {
      if k < Min(index, |s|) {} else {}
    }
  }

}
