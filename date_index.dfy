/**
 * The byDate splay tree, seen through its in-order contents: a sequence of
 * elements strictly increasing under the byDate comparator. The operations
 * are the ones the store calls on the tree — Add, Get, Remove and First —
 * with the tree's matching rule: a probe matches a stored element when
 * neither comes before the other.
 */
module DateIndex {
  import opened Elements

  datatype Option<T> = None | Some(value: T)

  predicate Sorted(s: seq<Element>)
  {
    forall i, j :: 0 <= i < j < |s| ==> DateBefore(s[i], s[j])
  }

  /** The head of a sorted sequence comes before, and so shares no slot with, everything after it. */
  lemma HeadBeforeRest(s: seq<Element>)
    requires Sorted(s) && s != []
    ensures Sorted(s[1..])
    ensures forall x :: x in s[1..] ==> DateBefore(s[0], x) && !SameSlot(x, s[0])
    ensures forall x :: x in s <==> x == s[0] || x in s[1..]
  {
    forall x | x in s[1..]
      ensures DateBefore(s[0], x) && !SameSlot(x, s[0])
    {
      var k :| 0 <= k < |s[1..]| && s[1..][k] == x;
      assert s[k + 1] == x;
      DateBeforeTotal(s[0], x);
    }
    assert s == [s[0]] + s[1..];
  }

  /** An element before the head of a sorted sequence comes before all of it. */
  lemma BeforeHead(s: seq<Element>, e: Element)
    requires Sorted(s) && s != [] && DateBefore(e, s[0])
    ensures forall x :: x in s ==> DateBefore(e, x) && !SameSlot(x, e)
  {
    HeadBeforeRest(s);
    forall x | x in s
      ensures DateBefore(e, x) && !SameSlot(x, e)
    {
      if x != s[0] {
        DateBeforeTransitive(e, s[0], x);
      }
      DateBeforeTotal(e, x);
    }
  }

  /**
   * The tree's Add: the new element takes its place in the order and
   * replaces the stored element it matches, if there is one.
   */
  function Insert(s: seq<Element>, e: Element): (r: seq<Element>)
    requires Sorted(s)
    ensures Sorted(r)
    ensures forall x :: x in r <==> x == e || (x in s && !SameSlot(x, e))
  {
    if s == [] then
      [e]
    else if DateBefore(e, s[0]) then
      BeforeHead(s, e);
      [e] + s
    else if DateBefore(s[0], e) then
      HeadBeforeRest(s);
      DateBeforeTotal(s[0], e);
      [s[0]] + Insert(s[1..], e)
    else
      HeadBeforeRest(s);
      DateEquivalentIffSameSlot(s[0], e);
      assert forall x :: x in s[1..] ==> DateBefore(e, x) by {
        forall x | x in s[1..] ensures DateBefore(e, x) {
          SameSlotCompareAlike(s[0], e, x);
        }
      }
      [e] + s[1..]
  }

  /** The tree's Remove: drops the stored element that matches `e`, if there is one. */
  function Remove(s: seq<Element>, e: Element): (r: seq<Element>)
    requires Sorted(s)
    ensures Sorted(r)
    ensures forall x :: x in r <==> x in s && !SameSlot(x, e)
    ensures |s| - 1 <= |r| <= |s|
  {
    if s == [] then
      []
    else
      HeadBeforeRest(s);
      DateEquivalentIffSameSlot(s[0], e);
      if DateEquivalent(s[0], e) then s[1..] else [s[0]] + Remove(s[1..], e)
  }

  /** Removing the first entry leaves exactly the rest, in order. */
  lemma RemoveFirst(s: seq<Element>)
    requires Sorted(s) && s != []
    ensures Remove(s, s[0]) == s[1..]
  {
    DateBeforeIrreflexive(s[0]);
  }

  /**
   * The tree's Get: the stored element that matches the probe. A sorted
   * sequence holds at most one element per slot, so the answer is unique.
   */
  function Find(s: seq<Element>, probe: Element): (r: Option<Element>)
    requires Sorted(s)
    ensures r.Some? ==> r.value in s && SameSlot(r.value, probe)
    ensures r.Some? ==> forall x :: x in s && SameSlot(x, probe) ==> x == r.value
    ensures r.None? <==> forall x :: x in s ==> !SameSlot(x, probe)
  {
    if s == [] then
      None
    else
      HeadBeforeRest(s);
      DateEquivalentIffSameSlot(s[0], probe);
      if DateEquivalent(s[0], probe) then Some(s[0]) else Find(s[1..], probe)
  }

  /** The tree's First: the element no other element comes before, or nothing for an empty tree. */
  function First(s: seq<Element>): (r: Option<Element>)
    requires Sorted(s)
    ensures r.None? <==> s == []
    ensures r.Some? ==> r.value in s && forall x :: x in s && x != r.value ==> DateBefore(r.value, x)
    ensures r.Some? ==> forall x :: x in s ==> !DateBefore(x, r.value)
  {
    if s == [] then
      None
    else
      HeadBeforeRest(s);
      assert forall x :: x in s ==> !DateBefore(x, s[0]) by {
        forall x | x in s ensures !DateBefore(x, s[0]) {
          DateBeforeTotal(x, s[0]);
        }
      }
      Some(s[0])
  }
}
