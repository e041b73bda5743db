/**
 * A call sequence on the store that shows the effect of the byDate entry
 * Get leaves behind when it caps a deadline, run through the functions the
 * SelfDestructor methods are tied to. The short lemmas spell out the state
 * after each call; the two scenario lemmas state the end results.
 */
module Scenarios {
  import opened Keys
  import opened Elements
  import opened DateIndex
  import opened SelfDestruct

  const K: UUID := seq(16, _ => 7)

  const First100: Element := Element(K, "first", 100 * Second)
  const First60: Element := Element(K, "first", 60 * Second)
  const Second200: Element := Element(K, "second", 200 * Second)
  const Second162: Element := Element(K, "second", 162 * Second)

  const Empty: Store := Store(map[], [])

  lemma AddFirst()
    ensures AddStep(Empty, K, "first", 100 * Second) == Added(true, Store(map[K := First100], [First100]))
  {
  }

  lemma ReadCapsFirst()
    ensures WellFormed(Store(map[K := First100], [First100]))
    ensures ReadStep(Store(map[K := First100], [First100]), K, 0, DefaultAfterViewing)
      == Read("first", true, Store(map[K := First60], [First60, First100]))
  {
    assert Sorted([First100]);
    LexLessIrreflexive(K);
    assert Find([First100], Probe(K, 100 * Second)) == Some(First100);
  }

  lemma TickDropsCapped()
    ensures WellFormed(Store(map[K := First60], [First60, First100]))
    ensures TickStep(Store(map[K := First60], [First60, First100]), 61 * Second) == Store(map[], [First100])
  {
    assert Sorted([First60, First100]);
  }

  lemma AddSecond()
    ensures WellFormed(Store(map[], [First100]))
    ensures AddStep(Store(map[], [First100]), K, "second", 200 * Second)
      == Added(true, Store(map[K := Second200], [First100, Second200]))
  {
    assert Sorted([First100]);
    assert [First100][1..] == [] && Insert([], Second200) == [Second200];
    assert Insert([First100], Second200) == [First100, Second200];
  }

  lemma TickDropsStale()
    ensures WellFormed(Store(map[K := Second200], [First100, Second200]))
    ensures TickStep(Store(map[K := Second200], [First100, Second200]), 101 * Second) == Store(map[], [Second200])
  {
    assert Sorted([First100, Second200]);
  }

  /**
   * Add K expiring at 100s, read it at 0s (deadline capped to 60s), let the
   * cleaner drop it at 61s, then add K again expiring at 200s. The entry
   * (100s, K) left by the read is now the first of byDate; the pass at 101s
   * removes it and, with it, K from byKey, so a read at 102s finds nothing
   * although the second message's deadline is 200s.
   */
  lemma ReaddedKeyEvictedEarly()
    ensures var s1 := AddStep(Empty, K, "first", 100 * Second).after;
      var s2 := ReadStep(s1, K, 0, DefaultAfterViewing).after;
      var s3 := TickStep(s2, 61 * Second);
      var s4 := AddStep(s3, K, "second", 200 * Second);
      var s5 := TickStep(s4.after, 101 * Second);
      && |s2.byDate| == 2 && |s2.byKey| == 1
      && s4.ok
      && !ReadStep(s5, K, 102 * Second, DefaultAfterViewing).found
  {
    AddFirst();
    ReadCapsFirst();
    TickDropsCapped();
    AddSecond();
    TickDropsStale();
  }

  lemma ReadCapsFirstReplacing()
    ensures WellFormed(Store(map[K := First100], [First100]))
    ensures ReadReplacingStep(Store(map[K := First100], [First100]), K, 0, DefaultAfterViewing)
      == Read("first", true, Store(map[K := First60], [First60]))
  {
    assert Sorted([First100]);
    LexLessIrreflexive(K);
    assert Find([First100], Probe(K, 100 * Second)) == Some(First100);
    assert Remove([First100], First100) == [];
  }

  lemma TickDropsCappedReplacing()
    ensures WellFormed(Store(map[K := First60], [First60]))
    ensures TickStep(Store(map[K := First60], [First60]), 61 * Second) == Empty
  {
  }

  lemma AddSecondAlone()
    ensures AddStep(Empty, K, "second", 200 * Second) == Added(true, Store(map[K := Second200], [Second200]))
  {
  }

  lemma TickKeepsSecond()
    ensures WellFormed(Store(map[K := Second200], [Second200]))
    ensures TickStep(Store(map[K := Second200], [Second200]), 101 * Second) == Store(map[K := Second200], [Second200])
  {
  }

  lemma ReadSecond()
    ensures WellFormed(Store(map[K := Second200], [Second200]))
    ensures ReadReplacingStep(Store(map[K := Second200], [Second200]), K, 102 * Second, DefaultAfterViewing)
      == Read("second", true, Store(map[K := Second162], [Second162]))
  {
    assert Sorted([Second200]);
    LexLessIrreflexive(K);
    assert Find([Second200], Probe(K, 200 * Second)) == Some(Second200);
    assert Remove([Second200], Second200) == [];
  }

  /** The same calls with the corrected Get: the second message is still there at 102s. */
  lemma ReaddedKeyKeptCorrected()
    ensures var s1 := AddStep(Empty, K, "first", 100 * Second).after;
      var s2 := ReadReplacingStep(s1, K, 0, DefaultAfterViewing).after;
      var s3 := TickStep(s2, 61 * Second);
      var s4 := AddStep(s3, K, "second", 200 * Second);
      var s5 := TickStep(s4.after, 101 * Second);
      var r := ReadReplacingStep(s5, K, 102 * Second, DefaultAfterViewing);
      && |s2.byDate| == 1
      && s4.ok
      && r.found && r.message == "second"
  {
    AddFirst();
    ReadCapsFirstReplacing();
    TickDropsCappedReplacing();
    AddSecondAlone();
    TickKeepsSecond();
    ReadSecond();
  }
}
