/**
 * The stored element and the two comparators that `New` gives the
 * byKey and byDate trees (selfdestruct.go:12-16, 44-55).
 */
module Elements {
  import opened Keys

  /** An instant, counted in nanoseconds. */
  type Time = int

  datatype Element = Element(key: UUID, message: string, expires: Time)

  /** The element `Get` builds to look a key up in byDate: a key and an expiry, no message. */
  function Probe(key: UUID, expires: Time): Element
  {
    Element(key, "", expires)
  }

  /** The byKey comparator: keys compared with `less`. */
  predicate KeyBefore(a: Element, b: Element)
  {
    LexLess(a.key, b.key)
  }

  /** The byDate comparator: earlier expiry first, `less` on keys when the expiries are equal. */
  predicate DateBefore(a: Element, b: Element)
  {
    if a.expires == b.expires then LexLess(a.key, b.key) else a.expires < b.expires
  }

  /**
   * A tree matches a probe against a stored element when neither comes
   * before the other under the tree's comparator.
   */
  predicate KeyEquivalent(a: Element, b: Element)
  {
    !KeyBefore(a, b) && !KeyBefore(b, a)
  }

  predicate DateEquivalent(a: Element, b: Element)
  {
    !DateBefore(a, b) && !DateBefore(b, a)
  }

  /** Two elements occupy the same position of byDate: same expiry and same key. */
  predicate SameSlot(a: Element, b: Element)
  {
    a.expires == b.expires && a.key == b.key
  }

  /** byKey matches exactly the elements with the same key, so a map from key to element models it. */
  lemma KeyEquivalentIffSameKey(a: Element, b: Element)
    ensures KeyEquivalent(a, b) <==> a.key == b.key
  {
    LexLessTrichotomy(a.key, b.key);
  }

  /** byDate matches exactly the elements with the same expiry and key. */
  lemma DateEquivalentIffSameSlot(a: Element, b: Element)
    ensures DateEquivalent(a, b) <==> SameSlot(a, b)
  {
    LexLessTrichotomy(a.key, b.key);
  }

  lemma DateBeforeIrreflexive(a: Element)
    ensures !DateBefore(a, a)
  {
    LexLessIrreflexive(a.key);
  }

  lemma DateBeforeTransitive(a: Element, b: Element, c: Element)
    requires DateBefore(a, b) && DateBefore(b, c)
    ensures DateBefore(a, c)
  {
    if a.expires == b.expires == c.expires {
      LexLessTransitive(a.key, b.key, c.key);
    }
  }

  /** Two entries in different slots are strictly ordered, exactly one way round. */
  lemma DateBeforeTotal(a: Element, b: Element)
    ensures !(DateBefore(a, b) && DateBefore(b, a))
    ensures !SameSlot(a, b) <==> DateBefore(a, b) || DateBefore(b, a)
  {
    LexLessTrichotomy(a.key, b.key);
  }

  /** The byDate comparator looks only at the slot, so elements in the same slot compare alike. */
  lemma SameSlotCompareAlike(a: Element, b: Element, c: Element)
    requires SameSlot(a, b)
    ensures DateBefore(a, c) == DateBefore(b, c) && DateBefore(c, a) == DateBefore(c, b)
  {
  }
}
