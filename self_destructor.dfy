/**
 * SelfDestructor: the store itself (selfdestruct.go:18-121). Its two
 * indexes are updated in place by Add, Get and one pass of the cleaner
 * loop. Each method is tied to a step function on the contents of the
 * two trees, and the lemmas below state what those steps promise.
 *
 * byKey is a map from key to element: by KeyEquivalentIffSameKey the byKey
 * tree matches a probe exactly when the keys are equal. byDate is the
 * in-order contents of the byDate tree (module DateIndex).
 */
module SelfDestruct {
  import opened Keys
  import opened Elements
  import opened DateIndex

  /** time.Second, in the nanoseconds that Time counts. */
  const Second: Time := 1_000_000_000

  /** The default of AfterViewingExpiration. */
  const DefaultAfterViewing: Time := 60 * Second

  /** What the two trees hold. */
  datatype Store = Store(byKey: map<UUID, Element>, byDate: seq<Element>)

  /** Each element of byKey is filed under its own key, and byDate is in the comparator's order. */
  ghost predicate WellFormed(s: Store)
  {
    (forall k :: k in s.byKey ==> s.byKey[k].key == k) && Sorted(s.byDate)
  }

  /**
   * Every element of byKey is also an entry of byDate, with the same expiry
   * and message. The converse is not kept: Get leaves stale entries behind.
   */
  ghost predicate Indexed(s: Store)
  {
    forall k :: k in s.byKey ==> s.byKey[k] in s.byDate
  }

  /** The two trees hold exactly the same elements. */
  ghost predicate Agree(s: Store)
  {
    Indexed(s) && forall x :: x in s.byDate ==> x.key in s.byKey && s.byKey[x.key] == x
  }

  datatype Added = Added(ok: bool, after: Store)

  datatype Read = Read(message: string, found: bool, after: Store)

  /** Add: a key already in byKey is refused; a new one is filed in both trees. */
  function AddStep(s: Store, key: UUID, message: string, expires: Time): (r: Added)
    requires WellFormed(s)
    ensures WellFormed(r.after)
    ensures r.ok <==> key !in s.byKey
    ensures !r.ok ==> r.after == s
    ensures r.ok ==> r.after.byKey == s.byKey[key := Element(key, message, expires)]
    ensures r.ok ==> Element(key, message, expires) in r.after.byDate
    ensures r.ok ==> forall x :: x in s.byDate && x.key != key ==> x in r.after.byDate
    ensures r.ok ==> forall x :: x in r.after.byDate <==>
      x == Element(key, message, expires) || (x in s.byDate && !SameSlot(x, Element(key, message, expires)))
  {
    var el := Element(key, message, expires);
    if key in s.byKey then
      Added(false, s)
    else
      Added(true, Store(s.byKey[key := el], Insert(s.byDate, el)))
  }

  /**
   * Get: finds the element by key, then its byDate entry by (expiry, key),
   * and caps the deadline at now + afterViewing. The capped element is
   * filed in both trees; the byDate entry under the old expiry stays.
   */
  function ReadStep(s: Store, key: UUID, now: Time, afterViewing: Time): (r: Read)
    requires WellFormed(s)
    ensures WellFormed(r.after)
    ensures key !in s.byKey ==> r == Read("", false, s)
    ensures !r.found ==> r.message == "" && r.after == s
    ensures r.after.byKey.Keys == s.byKey.Keys
    ensures forall k :: k in r.after.byKey && k != key ==> r.after.byKey[k] == s.byKey[k]
    ensures forall k :: k in r.after.byKey ==> r.after.byKey[k].expires <= s.byKey[k].expires
    ensures key in s.byKey && s.byKey[key].expires <= now + afterViewing ==> r.after == s
    ensures r.found ==> r.after.byKey[key].expires <= now + afterViewing
    ensures r.found ==>
      r.after.byKey[key].expires == s.byKey[key].expires || r.after.byKey[key].expires == now + afterViewing
    ensures forall x :: x in s.byDate && x.key != key ==> x in r.after.byDate
    // A capped hit files the capped element and keeps every other entry,
    // the one under the old expiry included.
    ensures r.found && s.byKey[key].expires > now + afterViewing ==>
      && r.after.byKey[key].key == key
      && r.after.byKey[key].expires == now + afterViewing
      && forall x :: x in r.after.byDate <==>
        x == r.after.byKey[key] || (x in s.byDate && !SameSlot(x, r.after.byKey[key]))
  {
    if key !in s.byKey then
      Read("", false, s)
    else
      match Find(s.byDate, Probe(key, s.byKey[key].expires))
      case None => Read("", false, s)
      case Some(el) =>
        if el.expires > now + afterViewing then
          var capped := el.(expires := now + afterViewing);
          Read(el.message, true, Store(s.byKey[key := capped], Insert(s.byDate, capped)))
        else
          Read(el.message, true, s)
  }

  /**
   * Get replacing the old byDate entry: when the deadline is capped, the
   * entry under the old expiry is removed before the capped element is
   * filed, so both trees go on holding the same elements.
   */
  function ReadReplacingStep(s: Store, key: UUID, now: Time, afterViewing: Time): (r: Read)
    requires WellFormed(s)
    ensures WellFormed(r.after)
    ensures key !in s.byKey ==> r == Read("", false, s)
    ensures !r.found ==> r.message == "" && r.after == s
    ensures r.after.byKey.Keys == s.byKey.Keys
    ensures forall k :: k in r.after.byKey && k != key ==> r.after.byKey[k] == s.byKey[k]
    ensures forall k :: k in r.after.byKey ==> r.after.byKey[k].expires <= s.byKey[k].expires
    ensures key in s.byKey && s.byKey[key].expires <= now + afterViewing ==> r.after == s
    ensures r.found ==> r.after.byKey[key].expires <= now + afterViewing
    ensures r.found ==>
      r.after.byKey[key].expires == s.byKey[key].expires || r.after.byKey[key].expires == now + afterViewing
    // A capped hit files the capped element in place of the entry under the old expiry.
    ensures r.found && s.byKey[key].expires > now + afterViewing ==>
      && r.after.byKey[key].key == key
      && r.after.byKey[key].expires == now + afterViewing
      && forall x :: x in r.after.byDate <==>
        x == r.after.byKey[key] ||
        (x in s.byDate && !SameSlot(x, s.byKey[key]) && !SameSlot(x, r.after.byKey[key]))
  {
    if key !in s.byKey then
      Read("", false, s)
    else
      match Find(s.byDate, Probe(key, s.byKey[key].expires))
      case None => Read("", false, s)
      case Some(el) =>
        if el.expires > now + afterViewing then
          var capped := el.(expires := now + afterViewing);
          Read(el.message, true, Store(s.byKey[key := capped], Insert(Remove(s.byDate, el), capped)))
        else
          Read(el.message, true, s)
  }

  /**
   * One pass of the cleaner: the first entry of byDate is dropped, and its
   * key with it from byKey, when its deadline is strictly before `now`.
   */
  function TickStep(s: Store, now: Time): (r: Store)
    requires WellFormed(s)
    ensures WellFormed(r)
    // At most one entry goes from each tree ...
    ensures r.byDate == s.byDate || (s.byDate != [] && r.byDate == s.byDate[1..])
    ensures forall k :: k in r.byKey ==> k in s.byKey && r.byKey[k] == s.byKey[k]
    ensures forall k :: k in s.byKey && k !in r.byKey ==> s.byDate != [] && k == s.byDate[0].key
    // ... and only the earliest entry, once it is overdue.
    ensures forall x :: x in s.byDate && x !in r.byDate ==>
      x.expires < now && forall y :: y in s.byDate ==> !DateBefore(y, x)
    // An overdue first entry is dropped, with its key; otherwise nothing changes.
    ensures s.byDate != [] && s.byDate[0].expires < now ==>
      r.byDate == s.byDate[1..] && r.byKey == s.byKey - {s.byDate[0].key}
    ensures s.byDate == [] || now <= s.byDate[0].expires ==> r == s
  {
    match First(s.byDate)
    case None => s
    case Some(next) =>
      if now > next.expires then
        RemoveFirst(s.byDate);
        HeadBeforeRest(s.byDate);
        Store(s.byKey - {next.key}, Remove(s.byDate, next))
      else
        s
  }

  // The invariant lemmas below follow from the step functions' contracts,
  // which in turn rest on those of Insert, Remove, Find and First.

  lemma AddPreservesIndexed(s: Store, key: UUID, message: string, expires: Time)
    requires WellFormed(s) && Indexed(s)
    ensures Indexed(AddStep(s, key, message, expires).after)
  {
  }

  lemma AddPreservesAgree(s: Store, key: UUID, message: string, expires: Time)
    requires WellFormed(s) && Agree(s)
    ensures Agree(AddStep(s, key, message, expires).after)
  {
  }

  /** With byKey inside byDate, Get finds every stored key and returns its stored message. */
  lemma ReadFindsStored(s: Store, key: UUID, now: Time, afterViewing: Time)
    requires WellFormed(s) && Indexed(s)
    ensures ReadStep(s, key, now, afterViewing).found <==> key in s.byKey
    ensures key in s.byKey ==>
      && ReadStep(s, key, now, afterViewing).message == s.byKey[key].message
      && ReadStep(s, key, now, afterViewing).after.byKey[key].message == s.byKey[key].message
  {
  }

  lemma ReadPreservesIndexed(s: Store, key: UUID, now: Time, afterViewing: Time)
    requires WellFormed(s) && Indexed(s)
    ensures Indexed(ReadStep(s, key, now, afterViewing).after)
  {
  }

  /** A second Get at the same instant returns the same answer and changes nothing. */
  lemma ReadTwiceChangesNothing(s: Store, key: UUID, now: Time, afterViewing: Time)
    requires WellFormed(s)
    ensures var first := ReadStep(s, key, now, afterViewing);
      ReadStep(first.after, key, now, afterViewing) == first
  {
    var first := ReadStep(s, key, now, afterViewing);
    if first.found && first.after != s {
      var t := first.after;
      var capped := t.byKey[key];
      assert capped in t.byDate;
      assert Find(t.byDate, Probe(key, capped.expires)) == Some(capped);
    }
  }

  /**
   * When Get caps a deadline, the entry under the old expiry stays in byDate
   * beside the capped one, so the trees no longer hold the same elements.
   */
  lemma ReadLeavesStaleEntry(s: Store, key: UUID, now: Time, afterViewing: Time)
    requires WellFormed(s) && Indexed(s)
    requires key in s.byKey && s.byKey[key].expires > now + afterViewing
    ensures s.byKey[key] in ReadStep(s, key, now, afterViewing).after.byDate
    ensures !Agree(ReadStep(s, key, now, afterViewing).after)
  {
  }

  /** With the trees in agreement, the corrected Get finds every stored key and keeps the agreement. */
  lemma ReadReplacingPreservesAgree(s: Store, key: UUID, now: Time, afterViewing: Time)
    requires WellFormed(s) && Agree(s)
    ensures ReadReplacingStep(s, key, now, afterViewing).found <==> key in s.byKey
    ensures Agree(ReadReplacingStep(s, key, now, afterViewing).after)
  {
  }

  /**
   * The corrected Get answers as Get does and leaves byKey as Get leaves it;
   * the two differ only in byDate.
   */
  lemma ReadReplacingAnswersAsRead(s: Store, key: UUID, now: Time, afterViewing: Time)
    requires WellFormed(s)
    ensures ReadReplacingStep(s, key, now, afterViewing).found == ReadStep(s, key, now, afterViewing).found
    ensures ReadReplacingStep(s, key, now, afterViewing).message == ReadStep(s, key, now, afterViewing).message
    ensures ReadReplacingStep(s, key, now, afterViewing).after.byKey == ReadStep(s, key, now, afterViewing).after.byKey
  {
  }

  /** With byKey inside byDate, the corrected Get finds every stored key and returns its stored message. */
  lemma ReadReplacingFindsStored(s: Store, key: UUID, now: Time, afterViewing: Time)
    requires WellFormed(s) && Indexed(s)
    ensures ReadReplacingStep(s, key, now, afterViewing).found <==> key in s.byKey
    ensures key in s.byKey ==> ReadReplacingStep(s, key, now, afterViewing).message == s.byKey[key].message
  {
    ReadReplacingAnswersAsRead(s, key, now, afterViewing);
    ReadFindsStored(s, key, now, afterViewing);
  }

  lemma ReadReplacingPreservesIndexed(s: Store, key: UUID, now: Time, afterViewing: Time)
    requires WellFormed(s) && Indexed(s)
    ensures Indexed(ReadReplacingStep(s, key, now, afterViewing).after)
  {
  }

  lemma TickPreservesIndexed(s: Store, now: Time)
    requires WellFormed(s) && Indexed(s)
    ensures Indexed(TickStep(s, now))
  {
  }

  /** With the trees in agreement, the cleaner keeps them in agreement and removes nothing before its deadline. */
  lemma TickPreservesAgree(s: Store, now: Time)
    requires WellFormed(s) && Agree(s)
    ensures Agree(TickStep(s, now))
    ensures forall k :: k in s.byKey && k !in TickStep(s, now).byKey ==> s.byKey[k].expires < now
  {
  }

  class SelfDestructor {
    var byKey: map<UUID, Element>
    var byDate: seq<Element>
    /** How long a message stays readable after it is viewed (AfterViewingExpiration). */
    const afterViewing: Time

    ghost function State(): Store
      reads this
    {
      Store(byKey, byDate)
    }

    /** The trees are well formed, and every byKey element has its byDate entry. */
    ghost predicate Valid()
      reads this
    {
      WellFormed(State()) && Indexed(State())
    }

    /** New, with the cleaner not started and the window passed in. */
    constructor (afterViewing: Time)
      ensures Valid() && Agree(State())
      ensures byKey == map[] && byDate == [] && this.afterViewing == afterViewing
    {
      byKey := map[];
      byDate := [];
      this.afterViewing := afterViewing;
    }

    method Add(key: UUID, message: string, expires: Time) returns (ok: bool)
      requires Valid()
      modifies this
      ensures Valid()
      ensures Added(ok, State()) == AddStep(old(State()), key, message, expires)
    {
      AddPreservesIndexed(State(), key, message, expires);
      var el := Element(key, message, expires);
      if key in byKey {
        return false;
      }
      byKey := byKey[key := el];
      byDate := Insert(byDate, el);
      return true;
    }

    method Get(key: UUID, now: Time) returns (message: string, found: bool)
      requires Valid()
      modifies this
      ensures Valid()
      ensures Read(message, found, State()) == ReadStep(old(State()), key, now, afterViewing)
      ensures found <==> key in old(byKey)
      ensures found ==> message == old(byKey)[key].message
    {
      ghost var s0 := State();
      message, found := "", false;
      if key in byKey {
        var hit := Find(byDate, Probe(key, byKey[key].expires));
        if hit.Some? {
          var el := hit.value;
          var newExpires := now + afterViewing;
          if el.expires > newExpires {
            el := el.(expires := newExpires);
            byKey := byKey[key := el];
            byDate := Insert(byDate, el);
          }
          message, found := el.message, true;
        }
      }
      ReadFindsStored(s0, key, now, afterViewing);
      ReadPreservesIndexed(s0, key, now, afterViewing);
    }

    method GetReplacing(key: UUID, now: Time) returns (message: string, found: bool)
      requires Valid()
      modifies this
      ensures Valid()
      ensures Read(message, found, State()) == ReadReplacingStep(old(State()), key, now, afterViewing)
      ensures found <==> key in old(byKey)
      ensures found ==> message == old(byKey)[key].message
    {
      ghost var s0 := State();
      message, found := "", false;
      if key in byKey {
        var hit := Find(byDate, Probe(key, byKey[key].expires));
        if hit.Some? {
          var el := hit.value;
          var newExpires := now + afterViewing;
          if el.expires > newExpires {
            var stale := el;
            el := el.(expires := newExpires);
            byKey := byKey[key := el];
            byDate := Insert(Remove(byDate, stale), el);
          }
          message, found := el.message, true;
        }
      }
      ReadReplacingFindsStored(s0, key, now, afterViewing);
      ReadReplacingPreservesIndexed(s0, key, now, afterViewing);
    }

    method Tick(now: Time)
      requires Valid()
      modifies this
      ensures Valid()
      ensures State() == TickStep(old(State()), now)
    {
      TickPreservesIndexed(State(), now);
      var next := First(byDate);
      if next.Some? && now > next.value.expires {
        byDate := Remove(byDate, next.value);
        byKey := byKey - {next.value.key};
      }
    }
  }
}
