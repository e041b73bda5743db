# selfdestruct in Dafny

A model of `SelfDestructor`, an in-memory store of self-destructing
messages. Each element is a (key, message, expires) triple. The key is a
16-byte UUID. The store keeps the elements in two ordered indexes:

- `byKey`, ordered by the key, compared byte by byte (`less`);
- `byDate`, ordered by expiry, with `less` on the key breaking ties.

Three operations change them:

- `Add` stores an element only when its key is new.
- `Get` returns the message and caps the element's deadline at
  `now + AfterViewingExpiration`.
- The cleaner, once per pass, drops the earliest `byDate` entry if its
  deadline is strictly in the past.

Modules:

- `Keys` (`keys.dfy`): the `Byte` and `UUID` types, and `LexLess`, the
  lexicographic order used as the specification of `less`. `Less` is the
  source's loop, proved equal to `LexLess`. Lemmas show the order is a
  strict total order on keys and that the first differing byte decides.
- `Elements` (`elements.dfy`): `Element`, `Time` (an integer count of
  nanoseconds), and the two comparators `New` builds (`KeyBefore` and
  `DateBefore`). A tree matches a probe by comparator equivalence: neither
  element comes before the other. The lemmas show this means "same key" for
  `byKey` and "same expiry and key" (same slot) for `byDate`.
- `DateIndex` (`date_index.dfy`): the `byDate` tree seen as its in-order
  contents, a strictly sorted sequence. It models the tree's `Add` (insert,
  replacing a matching entry), `Remove`, `Get` (`Find`) and `First`.
- `SelfDestruct` (`self_destructor.dfy`): the class `SelfDestructor`.
  - Fields: `byKey` (a map from key to element), `byDate` (the sorted
    sequence), and the viewing window `afterViewing`.
  - Methods `Add`, `Get` and `Tick` update the fields in place. Each is
    tied to a step function: `AddStep`, `ReadStep` or `TickStep`.
  - Lemmas about the step functions state the store's guarantees and the
    invariants each step preserves.
- `Scenarios` (`scenarios.dfy`): one call sequence, run through the step
  functions, that shows the effect described under Findings.

Invariants:

- `Indexed`: every element in `byKey` is also in `byDate`, with the same
  expiry and message. `Add`, `Get` and the cleaner all preserve it, and it
  is part of the class invariant `Valid()`.
- `Agree`: the two indexes hold exactly the same elements. `Get` as written
  breaks it. When `Get` shortens a deadline, it adds the capped element to
  `byDate` but never removes the entry under the old expiry
  (selfdestruct.go:115-117). Under `Indexed`, `Get`'s second lookup always
  succeeds, so its `!ok` branch at selfdestruct.go:109-111 is unreachable.
  The model still contains that branch.

The evident intent is that both indexes always hold the same elements,
so `Get` should replace the old `byDate` entry when it caps a deadline.
The code does not do that, and the model follows the code.
`GetReplacing` / `ReadReplacingStep` is a version of `Get` that replaces
the entry, and `Agree` is proved for it.

## Model

| member | source | states |
|---|---|---|
| `Keys.Less` | selfdestruct.go:29-39 | the byte loop returns exactly `LexLess(a, b)`: true at the first byte where `a` is smaller, false at the first byte where it is larger, false when all sixteen bytes are equal |
| `Keys.LexLessIrreflexive` | selfdestruct.go:29-39 | no key is less than itself |
| `Keys.LexLessTransitive` | selfdestruct.go:29-39 | the key order is transitive |
| `Keys.LexLessTrichotomy` | selfdestruct.go:29-39 | for keys of equal length, `less(a,b)` and `less(b,a)` never both hold; at least one holds exactly when `a != b` |
| `Keys.LexLessFirstDifference` | selfdestruct.go:29-39 | when the first `i` bytes agree and byte `i` differs, byte `i` alone decides the order in both directions |
| `Elements.KeyEquivalentIffSameKey` | selfdestruct.go:44-46 | under the `byKey` comparator, two elements are equivalent exactly when their keys are equal, which justifies a map keyed by UUID |
| `Elements.DateEquivalentIffSameSlot` | selfdestruct.go:47-55 | under the `byDate` comparator, two elements are equivalent exactly when they have the same expiry and the same key |
| `Elements.DateBeforeIrreflexive` | selfdestruct.go:47-55 | no element comes before itself in `byDate` |
| `Elements.DateBeforeTransitive` | selfdestruct.go:47-55 | the `byDate` order is transitive, including ties on expiry broken by key |
| `Elements.DateBeforeTotal` | selfdestruct.go:47-55 | two elements are never ordered both ways; elements with different (expires, key) pairs are always ordered one way |
| `DateIndex.Insert` | selfdestruct.go:92-93 | adding to `byDate` keeps it strictly sorted; afterwards it holds the new element plus every old entry that is not in the new element's slot |
| `DateIndex.Remove` | selfdestruct.go:68 | removing from `byDate` keeps it sorted; it drops exactly the entries in the given slot, and at most one entry |
| `DateIndex.RemoveFirst` | selfdestruct.go:68 | removing the first entry leaves exactly the rest, in order |
| `DateIndex.Find` | selfdestruct.go:108-111 | the `byDate` lookup returns the entry in the probe's (expires, key) slot, which is unique, or nothing exactly when no entry is in that slot |
| `DateIndex.First` | selfdestruct.go:66-67 | `First` is empty exactly for an empty index; otherwise it returns an entry that comes before every other entry |
| `SelfDestruct.AddStep` | selfdestruct.go:78-96 | Add succeeds exactly when the key is not in `byKey`; a refused Add changes nothing, including the stored message and expiry; an accepted Add files the element under its key in `byKey`; afterwards `byDate` holds exactly the new element plus the old entries outside its (expires, key) slot, so no other key's entry is lost |
| `SelfDestruct.AddPreservesIndexed` | selfdestruct.go:92-93 | Add keeps every `byKey` element in `byDate` |
| `SelfDestruct.AddPreservesAgree` | selfdestruct.go:88-93 | Add keeps the two indexes holding the same elements |
| `SelfDestruct.ReadStep` | selfdestruct.go:99-121 | an absent key gives ("", false) and no change; a miss changes nothing; the set of keys is unchanged, and only the read key's element may change; no deadline is lengthened; a deadline within `now + window` is left alone; after a hit the deadline is at most `now + window` and equals either the old deadline or `now + window`; a capped hit leaves `byDate` holding exactly the capped element plus every old entry outside its slot, so the entry under the old expiry stays |
| `SelfDestruct.ReadFindsStored` | selfdestruct.go:103-120 | while `byKey` is inside `byDate`, Get finds exactly the stored keys, returns the stored message and leaves the message unchanged |
| `SelfDestruct.ReadPreservesIndexed` | selfdestruct.go:113-118 | Get keeps every `byKey` element in `byDate` |
| `SelfDestruct.ReadTwiceChangesNothing` | selfdestruct.go:113-118 | a second Get of the same key at the same instant returns the same answer and leaves both indexes as the first left them |
| `SelfDestruct.ReadLeavesStaleEntry` | selfdestruct.go:115-117 | when Get caps a deadline, the entry under the old expiry stays in `byDate`, and the indexes stop holding the same elements |
| `SelfDestruct.ReadReplacingStep` | selfdestruct.go:113-118 | corrected Get: an absent key or a miss changes nothing; only the read key's element may change; a deadline within `now + window` is left alone; otherwise the deadline becomes `now + window`; a capped hit leaves `byDate` holding the capped element plus every old entry outside both the old slot and the new one, so the entry under the old expiry is gone |
| `SelfDestruct.ReadReplacingAnswersAsRead` | selfdestruct.go:103-120 | the corrected Get returns the same `found` and message as Get and leaves `byKey` as Get leaves it; the two differ only in `byDate` |
| `SelfDestruct.ReadReplacingFindsStored` | selfdestruct.go:103-120 | while `byKey` is inside `byDate`, the corrected Get finds exactly the stored keys and returns the stored message |
| `SelfDestruct.ReadReplacingPreservesIndexed` | selfdestruct.go:113-118 | the corrected Get keeps every `byKey` element in `byDate` |
| `SelfDestruct.ReadReplacingPreservesAgree` | selfdestruct.go:113-118 | while the indexes agree, the corrected Get finds exactly the stored keys and keeps the indexes in agreement |
| `SelfDestruct.TickStep` | selfdestruct.go:63-71 | one cleaner pass removes at most the first `byDate` entry and at most that entry's key from `byKey`; anything removed was overdue (deadline strictly before `now`) and had no entry before it; every other entry of both indexes is untouched; an overdue first entry is removed, with its key; an empty index or a first entry not yet overdue means no change |
| `SelfDestruct.TickPreservesIndexed` | selfdestruct.go:66-69 | a cleaner pass keeps every `byKey` element in `byDate` |
| `SelfDestruct.TickPreservesAgree` | selfdestruct.go:66-69 | while the indexes agree, a pass keeps them in agreement and removes no key whose stored deadline has not passed |
| `SelfDestruct.SelfDestructor.constructor` | selfdestruct.go:42-59 | New starts with both indexes empty (so they agree and the invariant holds) and the given viewing window |
| `SelfDestruct.SelfDestructor.Add` | selfdestruct.go:78-96 | the in-place Add keeps the invariant (well formed, `byKey` inside `byDate`) and returns and leaves exactly what `AddStep` gives |
| `SelfDestruct.SelfDestructor.Get` | selfdestruct.go:99-121 | the in-place Get keeps the invariant, returns and leaves exactly what `ReadStep` gives, finds a message exactly when the key was stored, and then returns the stored message |
| `SelfDestruct.SelfDestructor.GetReplacing` | selfdestruct.go:113-118 | the corrected in-place Get keeps the invariant, returns and leaves exactly what `ReadReplacingStep` gives, finds a message exactly when the key was stored, and then returns the stored message |
| `SelfDestruct.SelfDestructor.Tick` | selfdestruct.go:63-71 | one in-place cleaner pass keeps the invariant and leaves exactly what `TickStep` gives |
| `Scenarios.ReaddedKeyEvictedEarly` | selfdestruct.go:115-117 | after the calls under Findings, the read leaves two `byDate` entries for one key, and the final Get misses a message whose deadline has not passed |
| `Scenarios.ReaddedKeyKeptCorrected` | selfdestruct.go:115-117 | the same calls with the corrected Get keep one entry per key, and the final Get returns the second message |

## Left out

- The cleaner goroutine is not modelled: its endless loop, the one-second `time.Sleep`, and starting it from `New` (selfdestruct.go:57, 62, 73). `Tick` is one pass of the loop body, taken as one atomic step.
- The mutex is not modelled (selfdestruct.go:20, 65, 71, 79-80, 100-101). Each public call is treated as atomic.
- `time.Now()` is not called. `now` is a parameter of `Get`, `Tick` and their step functions.
- `AfterViewingExpiration` is a global variable in the source. Here it is the constructor parameter `afterViewing`, and `DefaultAfterViewing` holds its default of sixty seconds.
- The splay tree library is not part of this model. `byKey` is a map and `byDate` is its sorted in-order sequence. The model assumes two things about the library. First, `Has`, `Get` and `Remove` match a stored element by comparator equivalence. Second, `Add` of an equivalent element replaces the stored one.
- The gouuid package is not part of this model. A UUID is a sequence of sixteen bytes.
- `Time` is an integer instant, so `now + afterViewing` cannot overflow.
- `DateBefore` compares instants only. Go's `==` on `time.Time` (selfdestruct.go:51) also compares the location and the monotonic clock reading. `time.Now().Add(...)` in `Get` carries a monotonic reading, while a caller's `expires` may not. In Go, two elements at the same instant that differ in location or monotonic reading are neither `==` nor `After` each other, so the `byDate` comparator treats them as equivalent whatever their keys. `byDate.Add` can then overwrite another key's entry. `Elements.DateBeforeTotal` and `Elements.DateEquivalentIffSameSlot` hold for the model's instants, not for such Go values.
- The cleaner still removes at most one entry per pass. A version that drains every overdue entry is not modelled.

## Findings

| source | as written | input that shows it | evidently intended | confidence | as-written member | corrected member |
|---|---|---|---|---|---|---|
| selfdestruct.go:115-117 | Get adds the capped element to `byDate` but keeps the entry under the old expiry. Later, when the cleaner removes that stale entry, it also removes the entry's key from `byKey`. That key may have been added again since, with a later deadline. | `Add(K, "first", 100s)`; `Get(K)` at 0s with a 60s window; a pass at 61s; `Add(K, "second", 200s)` returns true; a pass at 101s; `Get(K)` at 102s returns ("", false) although the deadline is 200s | the old `byDate` entry is replaced, so both indexes hold the same elements and the cleaner removes an element only once its own deadline has passed | medium, not executed: it rests on the splay library's matching rule and on a key being added again after it was swept | `SelfDestruct.ReadStep` with `Scenarios.ReaddedKeyEvictedEarly` | `SelfDestruct.ReadReplacingStep` with `SelfDestruct.ReadReplacingPreservesAgree`, `SelfDestruct.TickPreservesAgree` and `Scenarios.ReaddedKeyKeptCorrected` |
