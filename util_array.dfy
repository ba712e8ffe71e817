// The two removal helpers of util.h over foundation::Array: swap_pop and
// shift_pop. Both remove the element at an index in place; swap_pop moves the
// last element into the hole, shift_pop keeps the order of the rest.
module Foundation {

  /** foundation::Array: a buffer whose first `size` slots are the elements.
      pop_back only lowers `size`; the slot it gives up keeps its value. */
  class Array<T> {
    var data: array<T>
    var size: nat

    ghost predicate Valid()
      reads this
    {
      size <= data.Length
    }

    /** The elements of the array, in order. */
    ghost function Contents(): seq<T>
      reads this, data
      requires Valid()
    {
      data[..size]
    }
  }

  // ---------------------------------------------------------------------------
  // Specification functions
  // ---------------------------------------------------------------------------

  /** The elements after swap_pop: the last element is swapped into `index`
      and the last position is dropped. */
  function SwapPopped<T>(s: seq<T>, index: nat): seq<T>
    requires index < |s|
  {
    s[index := s[|s| - 1]][..|s| - 1]
  }

  /** The elements after shift_pop: everything but the element at `index`, in order. */
  function ShiftPopped<T>(s: seq<T>, index: nat): seq<T>
    requires index < |s|
  {
    s[..index] + s[index + 1..]
  }

  // ---------------------------------------------------------------------------
  // swap_pop and shift_pop
  // ---------------------------------------------------------------------------

  /** swap_pop: O(1) removal that does not keep the order of the elements.
      The source asserts index < size. */
  method SwapPop<T>(a: Array<T>, index: nat)
    requires a.Valid() && index < a.size
    modifies a, a.data
    ensures a.Valid() && a.data == old(a.data)
    ensures a.size == old(a.size) - 1
    ensures a.Contents() == SwapPopped(old(a.Contents()), index)
    ensures a.data[a.size] == old(a.Contents())[index]
    ensures forall k :: a.size < k < a.data.Length ==> a.data[k] == old(a.data[k])
  {
    var last := a.size - 1;
    a.data[index], a.data[last] := a.data[last], a.data[index];
    a.size := last;
  }

  /** shift_pop: moves the element at `index` to the back by a run of adjacent
      swaps, then pops it; the remaining elements keep their order. The source
      asserts index < size. */
  method ShiftPop<T>(a: Array<T>, index: nat)
    requires a.Valid() && index < a.size
    modifies a, a.data
    ensures a.Valid() && a.data == old(a.data)
    ensures a.size == old(a.size) - 1
    ensures a.Contents() == ShiftPopped(old(a.Contents()), index)
    ensures a.data[a.size] == old(a.Contents())[index]
    ensures forall k :: a.size < k < a.data.Length ==> a.data[k] == old(a.data[k])
  {
    var size := a.size;
    ghost var s := a.data[..];
    for i := index to size - 1
      invariant a.size == size && a.data == old(a.data)
      invariant forall k :: 0 <= k < index ==> a.data[k] == s[k]
      invariant forall k :: index <= k < i ==> a.data[k] == s[k + 1]
      invariant a.data[i] == s[index]
      invariant forall k :: i < k < a.data.Length ==> a.data[k] == s[k]
    {
      a.data[i], a.data[i + 1] := a.data[i + 1], a.data[i];
    }
    a.size := size - 1;
    ShiftPoppedShape(s[..size], index);
    assert a.Contents() == ShiftPopped(s[..size], index);
  }

  // ---------------------------------------------------------------------------
  // What the two removals promise
  // ---------------------------------------------------------------------------

  /** swap_pop shrinks by one, puts the old last element at `index` (when
      `index` was not the last position) and leaves every other position alone. */
  lemma SwapPoppedShape<T>(s: seq<T>, index: nat)
    requires index < |s|
    ensures |SwapPopped(s, index)| == |s| - 1
    ensures index < |s| - 1 ==> SwapPopped(s, index)[index] == s[|s| - 1]
    ensures forall k :: 0 <= k < |s| - 1 && k != index ==> SwapPopped(s, index)[k] == s[k]
  {
  }

  /** swap_pop removes exactly one occurrence of the element at `index`. */
  lemma SwapPoppedMultiset<T>(s: seq<T>, index: nat)
    requires index < |s|
    ensures multiset(SwapPopped(s, index)) == multiset(s) - multiset{s[index]}
  {
    var r, y := SwapPopped(s, index), s[|s| - 1];
    var rest := multiset(s) - multiset{s[index]};
    calc {
      multiset(r);
    == { AddThenRemove(multiset(r), y); }
      multiset(r) + multiset{y} - multiset{y};
    == { SwapPoppedThenLast(s, index); assert multiset(r + [y]) == multiset(r) + multiset{y}; }
      multiset(s[index := y]) - multiset{y};
    == { UpdatedMultiset(s, index, y); }
      rest + multiset{y} - multiset{y};
    == { AddThenRemove(rest, y); }
      rest;
    }
  }

  /** Appending the old last element to the result of swap_pop gives the
      sequence with that element written over `index`. */
  lemma SwapPoppedThenLast<T>(s: seq<T>, index: nat)
    requires index < |s|
    ensures SwapPopped(s, index) + [s[|s| - 1]] == s[index := s[|s| - 1]]
  {
  }

  /** Writing v at position i trades one occurrence of s[i] for one of v. */
  lemma UpdatedMultiset<T>(s: seq<T>, i: nat, v: T)
    requires i < |s|
    ensures multiset(s[i := v]) == multiset(s) - multiset{s[i]} + multiset{v}
  {
  }

  /** Adding one occurrence and removing it again leaves a multiset unchanged. */
  lemma AddThenRemove<T>(m: multiset<T>, y: T)
    ensures m + multiset{y} - multiset{y} == m
  {
  }

  /** shift_pop shrinks by one and shifts every element after `index` down by one. */
  lemma ShiftPoppedShape<T>(s: seq<T>, index: nat)
    requires index < |s|
    ensures |ShiftPopped(s, index)| == |s| - 1
    ensures forall k :: 0 <= k < index ==> ShiftPopped(s, index)[k] == s[k]
    ensures forall k :: index <= k < |s| - 1 ==> ShiftPopped(s, index)[k] == s[k + 1]
  {
  }

  /** Putting the removed element back at `index` restores the original
      sequence: shift_pop removes one element and keeps the order of the rest. */
  lemma ShiftPoppedReinsert<T>(s: seq<T>, index: nat)
    requires index < |s|
    ensures var r := ShiftPopped(s, index); r[..index] + [s[index]] + r[index..] == s
  {
    var r := ShiftPopped(s, index);
    assert r[..index] == s[..index];
    assert r[index..] == s[index + 1..];
  }

  /** shift_pop removes exactly one occurrence of the element at `index`. */
  lemma ShiftPoppedMultiset<T>(s: seq<T>, index: nat)
    requires index < |s|
    ensures multiset(ShiftPopped(s, index)) == multiset(s) - multiset{s[index]}
  {
    assert s == s[..index] + [s[index]] + s[index + 1..];
  }

  /** The two removals keep the same elements, and agree outright when the
      removed element is the last one. */
  lemma SwapAndShiftAgree<T>(s: seq<T>, index: nat)
    requires index < |s|
    ensures multiset(SwapPopped(s, index)) == multiset(ShiftPopped(s, index))
    ensures index == |s| - 1 ==> SwapPopped(s, index) == ShiftPopped(s, index)
  {
    SwapPoppedMultiset(s, index);
    ShiftPoppedMultiset(s, index);
  }
}
