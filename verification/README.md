# redis-dict-golang in Dafny

A model of `dict.go` of redis-dict-golang. It is a Redis-style chained
hash table that grows by **progressive rehashing**:

- Table 0 is the active table and table 1 the incoming one.
- A cursor `rehashIndex` (-1 when no rehash runs) counts the buckets of
  table 0 the rehash has passed, empty ones and migrated ones alike; every
  bucket below it is empty.
- While a rehash runs, every `Load`, every `Store` and every `Delete` on a
  non-empty dict takes one rehash step, unless a safe iterator is open. A step migrates at most one
  non-empty bucket, and gives up without migrating anything once it has
  passed 10 empty ones.
- Iterators walk table 0's buckets and then table 1's. A *safe* iterator
  pins the tables by counting itself in `iterators`. An *unsafe* one
  records a fingerprint of the table metadata and complains at `release`
  when it changed.

The model is imperative, as the source is. `HashDict.Dict` is a class whose
fields are the two `HashTable` objects, `rehashIndex` and `iterators`. Each
`HashTable` owns an `array` of bucket chains with its `size` and `used`
counters. A ghost `contents: map<K, V>` is what the dict stands for. Every
method keeps `Dict.Valid()`, which is `DictInvariant.Inv` over the arrays'
contents. It states that:

- every entry sits in the bucket its hash selects;
- no key is held twice, in one table or across the two;
- `used` counts each table's entries, and their sum is `|contents|`;
- sizes are 0 or powers of two between 4 and 2^63;
- table 1 is allocated exactly while a rehash runs;
- every bucket of table 0 below the cursor is empty;
- the two tables together represent `contents`.

The modules follow the structure of the source:

- `Capacity` covers the `uint64` counters and `nextPower`.
- `Chains` covers the `entry` lists.
- `Buckets` holds the value-level bucket arrays and the walk order.
- `DictInvariant` proves each state change keeps the invariant.
- `HashDict` holds the classes and the operations.
- `Iteration` holds the iterator, `rangeDict`, `Range` and `RangeSafely`.
- `Scenarios` states the runs of `dict_test.go` as contracts, for every hash function.

Some choices in the model:

- **Hash function.** The hash is a parameter `hash: K -> nat` of the dict. `ht.sizemask & hash` is `hash % size`, which is the same value for a power-of-two size, and 0 for a table never allocated.
- **Fingerprint.** It is the six numbers it mixes, with the table object standing for the address of its `buckets` field. That address changes exactly when `rehash` installs a new table object.
- **Where code and prose disagree, the model follows the code.**
  - `resizeTo` returns one error ("faileed to resize") both while rehashing and when the request is below `used`, so it has one error kind, `ResizeFailed`.
  - `nextPower` does not saturate for large requests (see Findings).
  - After migrating 100 entries the table size is 128. `dict_test.go:210` expects 64, which the code does not produce.

## Model

| member | source | states |
|---|---|---|
| Capacity.IncU64 | dict.go:277 | `iterators++` on a `uint64`: below the maximum it adds one, and the result stays below 2^64 |
| Capacity.DecU64 | dict.go:305 | `iterators--` on a `uint64`: it subtracts one and wraps from 0 to the maximum |
| Capacity.DecUndoesInc | dict.go:277 | a decrement undoes an increment for every counter value, wrap-around included |
| Capacity.AddU64 | dict.go:277 | `n` increments of a `uint64` counter: exact while below 2^64, and the result always stays below 2^64 |
| Capacity.LeastPow2IsLeast | dict.go:186-195 | the size `nextPower` picks is a power of two, at least the request and at least 4, and no larger than any other such power |
| Capacity.LeastPow2Examples | dict_test.go:178-189 | the picked sizes for 3, 5 and 8 are 4, 8 and 8 |
| Capacity.LeastPow2OfPow2 | dict.go:190-194 | a request that already is a power of two of at least 4 is returned unchanged |
| Capacity.LeastPow2Bounded | dict.go:186-195 | a request of at most 2^63 gets a size of at most 2^63 |
| Capacity.DoubleWithinMax | dict.go:157-158 | doubling a full table below 2^63 gives a power of two within 2^63 |
| Capacity.NextPower | dict.go:186-195 | corrected `nextPower`: up to 2^63 its shift loop returns the least power of two that is at least the request and at least 4; above that it saturates at the `uint64` maximum |
| Capacity.ShiftedCursorStaysLow | dict.go:190-193 | as written, the shift cursor is always 0 or a power of two of at most 2^63 |
| Capacity.NextPowerSpinsAboveHalf | dict.go:187-193 | as written, for 2^63 < size < 2^64-1 the loop guard `i < size` holds after any number of shifts, so `nextPower` never returns |
| Chains.Find | dict.go:62-66 | the value the chain holds for a key: found means an entry with that key and that value is in the chain |
| Chains.FindEntry | dict.go:62-66 | in a chain without duplicate keys, every entry is what a lookup of its key finds |
| Chains.FindPrepend | dict.go:108 | linking a new entry in front makes its key find its value and leaves other keys' lookups unchanged |
| Chains.FindRemoveAt | dict.go:131-136 | unlinking the entry at position j keeps the keys distinct, makes that key absent and leaves other keys' lookups unchanged |
| Chains.FindSetValueAt | dict.go:78 | overwriting a value in place makes that key find the new value and changes no other key |
| Chains.FindAppend | dict.go:62-66 | a lookup in two joined chains is the first chain's answer, or the second's when the first has none |
| Buckets.Flatten | dict.go:272-300 | the entries of a table in bucket order number exactly the table's entry count; what they are is stated by `FlattenLookup` and `FlattenDistinct` |
| Buckets.FlattenLookup | dict.go:272-300 | a well-formed table's flattened entries are exactly its key-value pairs |
| Buckets.FlattenDistinct | dict.go:272-300 | the flattened entries of a well-formed table carry no key twice |
| Buckets.PrependNew | dict.go:108-110 | linking a new key into its bucket keeps the table well formed, adds one to its count, and makes the key look up its value without changing other keys |
| Buckets.UnlinkEntry | dict.go:129-138 | unlinking an entry keeps the table well formed, removes one from its count, and makes its key absent without changing other keys |
| Buckets.SetValueEntry | dict.go:78 | overwriting an entry's value keeps the table well formed and the count, and changes only that key's lookup |
| Buckets.MoveAllSpec | dict.go:225-233 | relinking a chain of distinct keys absent from the destination keeps it well formed, adds the chain's length to its count, makes each moved key look up its value and leaves other keys' lookups unchanged |
| Buckets.RepresentsMigrate | dict.go:225-235 | moving bucket `ri` of table 0 into table 1 and emptying it keeps the represented map, and moves the bucket's length from one count to the other |
| Buckets.RepresentsPromote | dict.go:237-241 | once table 0 is empty, table 1 alone represents the map |
| Buckets.WalkIsContents | dict.go:272-300 | the iteration order hands out exactly the pairs of the map, each key once, as many as the two `used` counters sum to |
| DictInvariant.InvEmpty | dict.go:40-46 | the new dict with two unallocated tables and no rehash satisfies the invariant for the empty map |
| DictInvariant.InvInsert0 | dict.go:108-110 | inserting a new key into table 0 outside a rehash keeps the invariant for the map with that key added |
| DictInvariant.InvInsert1 | dict.go:102-110 | inserting a new key into table 1 during a rehash keeps the invariant for the map with that key added |
| DictInvariant.InvUnlink0 | dict.go:128-139 | unlinking an entry of table 0 keeps the invariant for the map without its key |
| DictInvariant.InvUnlink1 | dict.go:128-139 | unlinking an entry of table 1 keeps the invariant for the map without its key |
| DictInvariant.InvSetValue0 | dict.go:78 | overwriting a value in table 0 keeps the invariant for the map with that key's value updated |
| DictInvariant.InvSetValue1 | dict.go:78 | overwriting a value in table 1 keeps the invariant for the map with that key's value updated |
| DictInvariant.InvSkip | dict.go:217-219 | stepping the cursor past an empty bucket keeps the invariant |
| DictInvariant.InvMigrate | dict.go:225-235 | migrating the cursor's bucket and stepping past it keeps the invariant and the map, moving `used` between the tables |
| DictInvariant.InvPromote | dict.go:237-241 | when table 0 is drained, table 1 as table 0, a fresh empty table 1 and cursor -1 satisfy the invariant for the same map |
| DictInvariant.InvAllocate0 | dict.go:173-174 | giving the unallocated table 0 a fresh power-of-two array keeps the invariant |
| DictInvariant.InvAllocate1 | dict.go:175-181 | outside a rehash, allocating table 1 as an empty power-of-two array starts a rehash at cursor 0 and keeps the invariant |
| HashDict.MaskIndex | dict.go:58 | `sizemask & hash` lies inside an allocated table and is 0 in a table never allocated |
| HashDict.GuardAsWrittenNeverFires | dict.go:58-61 | as written, the guard `idx > ht.size` is false for every size and hash, even for the table without buckets |
| HashDict.FindInChain | dict.go:62-66 | the chain walk finds a position holding the key exactly when the chain has that key |
| HashDict.HashTable.PrependAt | dict.go:108-110 | the bucket gets the entry in front of its chain, other buckets are unchanged, and `used` grows by one |
| HashDict.HashTable.UnlinkAt | dict.go:131-138 | the entry leaves its bucket, other buckets are unchanged, and `used` drops by one |
| HashDict.HashTable.OverwriteAt | dict.go:78 | only the value of that one entry changes |
| HashDict.MoveChain | dict.go:225-233 | each entry of the chain is linked in front of its bucket of the destination, and `used` moves from source to destination one entry at a time |
| HashDict.Dict.constructor | dict.go:40-46 | a new dict holds nothing, is not rehashing, has table 0 unallocated and no iterators |
| HashDict.Dict.UsedIsLen | dict.go:359-365 | outside a rehash, table 0's `used` is the number of stored pairs and table 1 is empty |
| HashDict.Dict.EntriesAreContents | dict.go:272-300 | the dict's walk order lists each stored pair exactly once and nothing else |
| HashDict.Dict.IsRehashing | dict.go:404-406 | a rehash runs exactly while table 1 is allocated |
| HashDict.Dict.Target | dict.go:101-104 | new keys go to table 1 exactly while a rehash runs, and that table is allocated; otherwise to table 0, which then holds every stored pair |
| HashDict.Dict.Fingerprint | dict.go:330-356 | the recorded metadata of the two distinct tables: their counts add up to the number of stored pairs, their sizes are the bucket counts, and table 1's size is nonzero exactly while a rehash runs |
| HashDict.HashTable.Empty | dict.go:239 | the zero table: no buckets, size 0, no entries |
| HashDict.Dict.Len | dict.go:359-365 | the sum of the two `used` counters is the number of stored pairs |
| HashDict.Dict.Cap | dict.go:368-373 | the capacity is 0 or a power of two of at least 4, and it is not 0 while the dict holds pairs |
| HashDict.Dict.KeyIndex | dict.go:54-72 | with the guard corrected: it finds a slot holding the key exactly when the key is stored (in table 1 only while rehashing); otherwise it returns the bucket of the insertion table the key hashes to |
| HashDict.Dict.SlotValue | dict.go:88-89 | the entry a found slot names carries the value the map holds for its key |
| HashDict.Dict.Load | dict.go:83-92 | it returns the stored value of the key or nothing, keeps the map, and moves nothing when no rehash runs or an iterator is open |
| HashDict.Dict.PrependEntry | dict.go:108-110 | a new key linked into the insertion table is added to the map, with the tables' shape kept: the entry heads the key's bucket of table 1 while rehashing and of table 0 otherwise, the other table is unchanged, and that table's lookup of the key gives the new value |
| HashDict.Dict.LoadOrStore | dict.go:95-113 | `loaded` holds exactly when the key was present; then the map is unchanged and the slot names its entry; otherwise the pair is added, into table 1 if a rehash runs once the step and the growth check are done and into table 0 otherwise, where a lookup of the key gives the new value; the capacity grows as an insertion demands |
| HashDict.Dict.SetSlotValue | dict.go:77-79 | overwriting through a slot maps the key to the new value |
| HashDict.Dict.Store | dict.go:75-80 | afterwards the key maps to the value and every other pair is unchanged; the capacity grows as an insertion demands (4 buckets first, then twice a full table) |
| HashDict.Dict.UnlinkEntryAt | dict.go:128-139 | unlinking an entry removes exactly its key from the map |
| HashDict.Dict.Delete | dict.go:116-147 | afterwards the key is absent and every other pair is unchanged; deleting from an empty dict moves nothing |
| HashDict.Dict.StepAndRemove | dict.go:120-146 | on a non-empty dict, a rehash step and the table scan remove exactly the key |
| HashDict.Dict.RemoveKey | dict.go:123-146 | the scan of both tables removes the key if present, with the tables' shape kept |
| HashDict.Dict.ExpandIfNeeded | dict.go:150-161 | nothing while rehashing; 4 buckets for an empty table 0; a rehash into twice the size for a full one; a failure only for a full table of 2^63 |
| HashDict.Dict.ResizeTo | dict.go:164-183 | fails exactly while rehashing or when the request is below `used`; a no-op when the rounded size is the current one; otherwise allocates table 0 or starts a rehash into a table of the rounded size |
| HashDict.Dict.Resize | dict.go:198-207 | refused while rehashing, with nothing changed; otherwise it succeeds and aims at the entry count, but at least 4: an unallocated table 0 gets 4 buckets, a table already of the aimed size is left alone, and any other size starts a rehash into a table of the aimed size |
| HashDict.Dict.MigrateBucket | dict.go:225-235 | the cursor's chain is relinked into table 1, its bucket emptied, the cursor advanced, and the map kept |
| HashDict.Dict.SkipEmpty | dict.go:217-223 | the cursor moves forward over empty buckets only; each costs one unit of the budget, so for a positive budget the cursor moves by exactly the budget spent; it gives up exactly when the budget reaches 0, and otherwise stops on a non-empty bucket |
| HashDict.Dict.RehashRound | dict.go:216-235 | one turn of the outer loop: the buckets not yet reached are unchanged, exactly one bucket passed was occupied unless the budget ran out, and the cursor moves by the budget spent plus that one bucket |
| HashDict.Dict.Promote | dict.go:237-241 | table 1 becomes table 0, a fresh empty table 1 is installed and the rehash ends, with the map kept |
| HashDict.Dict.RehashRounds | dict.go:214-236 | the outer loop keeps the map and the tables; the buckets not yet reached are unchanged; at most `steps` of the buckets passed held entries and, when `10 * steps` fits in 64 bits, at most `10 * steps` were empty; with steps and entries left the cursor advances; a give-up leaves entries in table 0 |
| HashDict.Dict.Rehash | dict.go:210-244 | the map is kept; it reports `true` exactly when no rehash is left, and a rehash left running has entries in table 0; outside a rehash nothing moves; with steps the cursor advances or the rehash completes with table 1 promoted; at most `steps` of the buckets passed (up to the end when it completes) held entries; while the rehash keeps running, at most `10 * steps` of the buckets passed were empty |
| HashDict.Dict.AddIterator | dict.go:276-277 | the iterator count increments, wrapping as a `uint64` |
| HashDict.Dict.DropIterator | dict.go:304-305 | the iterator count decrements, wrapping as a `uint64` |
| HashDict.Dict.RehashStep | dict.go:265-269 | with an open iterator or outside a rehash nothing moves; otherwise the cursor advances or the rehash completes, passing at most one occupied bucket; while the rehash keeps running, at most 10 of the buckets passed were empty, and table 0 still has entries |
| HashDict.Dict.RehashForAWhile | dict.go:386-401 | the map is kept; the count is a multiple of 100 of at most 100 per timer round, and less than all rounds only when the rehash finished |
| Iteration.WalkAt | dict.go:272-300 | entry p of bucket i of a table sits at its place in the walk, after all earlier buckets' entries |
| Iteration.VisitedBound | dict.go:272-300 | a cursor in range never counts past the end of the walk |
| Iteration.StepInChain | dict.go:293-297 | following `next` inside a chain hands out the next entry of the walk |
| Iteration.EnterBucket | dict.go:291-292 | entering an empty bucket hands out nothing; entering a non-empty one hands out the next entry of the walk |
| Iteration.SwitchTable | dict.go:283-290 | moving from the end of table 0 to table 1 while rehashing skips no entry |
| Iteration.WalkDone | dict.go:283-286 | a cursor past the last bucket of the last table has handed out the whole walk |
| Iteration.Iterator.constructor | dict.go:256-262 | a new iterator is at the start of the walk, waiting for its first step |
| Iteration.Iterator.FirstStep | dict.go:274-281 | corrected first step, run once: a safe iterator increments `iterators`, an unsafe one records the current fingerprint |
| Iteration.Iterator.Step | dict.go:273-299 | one turn of the loop stops at the next entry of the walk or at its end, or otherwise makes progress; it counts one bucket fetched per turn without an entry |
| Iteration.Iterator.EnterBucketAt | dict.go:274-292 | a turn without an entry ends the walk, switches tables, or takes the next bucket's chain and hands out its first entry |
| Iteration.Iterator.FollowChain | dict.go:293-297 | a turn with an entry hands out the next entry of its chain, or none at the chain's end |
| Iteration.Iterator.Seek | dict.go:273-299 | turns run until the cursor holds the next entry of the walk, or the walk is over |
| Iteration.Iterator.Advance | dict.go:273-299 | the entry at the iterator's position in the walk is handed out and the position advances, or nothing is handed out at the end |
| Iteration.Iterator.Next | dict.go:272-300 | hands out the walk's entries in order, one per call, then nothing; a safe iterator registers once and an unsafe one snapshots the fingerprint once, on the first call |
| Iteration.Iterator.Release | dict.go:303-312 | a safe iterator deregisters; an unsafe one fails exactly when the fingerprint differs from its snapshot |
| Iteration.Iterator.SnapshotAgainAsWritten | dict.go:274-281 | as written, an unsafe iterator's turn that starts without an entry records the dict's current fingerprint again and changes no counter |
| Iteration.SafeWalkAsWritten | dict.go:272-300 | as written, a complete safe walk increments `iterators` once per bucket of both tables plus once more |
| Iteration.UnsafeWalkAsWritten | dict.go:272-300 | as written, a complete unsafe walk takes the fingerprint once per bucket of both tables plus once more on the turn that ends the walk, so the iterator ends holding the dict's metadata as it stands at the end |
| Iteration.RangedStep | dict.go:319-322 | handing the next entry of the walk to the callback keeps the ranging record |
| Iteration.RangedEnd | dict.go:323-325 | at the end of the walk ranging has visited the whole walk |
| Iteration.Drain | dict.go:318-326 | the callback sees a prefix of the walk; every entry but the last was answered true, and it stopped short only on a false |
| Iteration.Feed | dict.go:316-326 | the same, starting with the first `next` and its registration or snapshot |
| Iteration.RangeDict | dict.go:315-327 | the callback sees the walk in order until it answers false; the iterator count is restored, and the release succeeds because a pure callback leaves the dict unchanged |
| Iteration.Range | dict.go:376-378 | an unsafe ranging visits a prefix of the walk on which the callback answered true except at the last entry, stops short of the end only after a false answer, and visits all of it when the callback always answers true |
| Iteration.RangeSafely | dict.go:381-383 | a safe ranging visits a prefix of the walk on which the callback answered true except at the last entry, stops short of the end only after a false answer, visits all of it when the callback always answers true, and leaves the iterator count as it was |
| Scenarios.StoreOverwrite | dict_test.go:56-76 | a stored value loads back; a second store of the key overwrites it and the length stays 1 |
| Scenarios.LoadOrStoreTwice | dict_test.go:95-113 | the first call stores; the second reports loaded and the entry still holds the first value |
| Scenarios.DeleteOneOfTwo | dict_test.go:114-128 | of two stored keys, the deleted one is absent and the other still loads |
| Scenarios.LenAfterTwoStores | dict_test.go:130-140 | the length is 0 for a new dict and 2 after two distinct keys |
| Scenarios.CapAfterTwoStores | dict_test.go:141-151 | the capacity is 0 for a new dict and 4 after two insertions |
| Scenarios.StoreNextKey | dict.go:150-161 | inserting into a table 0 that is not full keeps its 4 buckets and adds the key |
| Scenarios.ExpandAfterFiveStores | dict_test.go:153-161 | after five distinct keys the dict rehashes from 4 into 8 buckets |
| Scenarios.ResizeUpThenDown | dict_test.go:162-176 | `resizeTo(8)` on a new dict allocates 8 buckets; `resizeTo(4)` then succeeds and starts a rehash into 4 |
| Scenarios.CountByIterator | dict_test.go:231-238 | calling `next` until it answers nil hands out as many entries as the dict holds |
| Scenarios.IterateThree | dict_test.go:225-244 | three stored keys make three entries handed out |
| Scenarios.UnsafeIteratorSeesStore | dict.go:303-312 | storing a new key after an unsafe iterator's first `next` makes its release fail |
| Scenarios.UnsafeWalkMissesStore | dict.go:274-281 | as written, a store after an unsafe iterator's first `next` changes the fingerprint, yet once the turn that ends the walk has taken the fingerprint again, release reports nothing |
| Scenarios.SafeWalkLeavesCounter | dict.go:272-312 | as written, after one insertion a complete safe walk registers 5 times while release takes back one, leaving the counter at 4; the registrations are counted by `SafeWalkAsWritten` and the counter is computed from them as `uint64` arithmetic, not by performing each increment |

## Left out

- `SipHash` (hash.go) is not part of this model. The hash is an arbitrary function supplied at construction. Its panic for unsupported key types does not arise, because `K` is any type with equality.
- The hash is a `nat` and the index is `hash % size`. For a power-of-two size this selects the same bucket as `sizemask & hash`. The `sizemask` field itself is not stored.
- `String` (dict.go:49-51) is `fmt` formatting and is left out.
- `RehashForAWhile`: the timer is modelled by `ticks`, the number of 100-bucket rounds that start before it fires. Real time and the `select` are not modelled.
- The fingerprint is compared as its six inputs, not as their Thomas Wang mix (dict.go:342-353). A collision of the mix, which would hide a change, is not modelled.
- The entry chains are sequences held in the bucket arrays, not linked `entry` objects. Aliasing between an entry handed out by `next` and the tables is therefore not modelled: `Delete` setting `ent.next = nil` (dict.go:137) while a safe iterator stands on that entry, and callbacks that mutate the dict during `rangeDict`.
- `Iteration.Range`, `Iteration.RangeSafely`, `Iteration.RangeDict` take a pure callback `(K, V) -> bool`. A callback that changes the dict is not modelled.
- `HashDict.Dict.ResizeTo` requires a request of at most 2^63. Above that, `nextPower` as written does not return (see Findings).
- `HashDict.Dict.Resize` requires table 0's `used` to be at most 2^63, for the same reason.
- The `used` counters are unbounded: a table never holds 2^64 entries, so their `uint64` wrap-around is not modelled. The `iterators` counter, the doubled size in `expandIfNeeded` and the empty-bucket budget of `rehash` do wrap as `uint64`.
- `HashDict.Dict.Rehash` bounds the empty buckets passed by `10 * steps` only when `10 * steps` fits in 64 bits. A larger product wraps as `uint64` in the model as in the source, and no bound is stated for it.
- The error of `expandIfNeeded` that `loadOrStore` drops (dict.go:99) is dropped in the model too.
- `Iteration.Iterator.Next` keeps the cursor in local variables during its loop. Its loop is split into `Step`, `Seek` and `Advance`, and it writes `tableIndex`, `bucketIndex` and `entry` back once at the end.
- `Iteration.Drain` follows the first `next` with `Advance`, which is `next` once the first-step flag is cleared.
- `Iteration.SafeWalkAsWritten` counts the registrations of the as-written walk instead of performing them. It models the safe half of the iterator finding.
- `Scenarios.UnsafeWalkMissesStore` runs only the final turn of the walk after the store, through `Iteration.Iterator.SnapshotAgainAsWritten`. That every complete unsafe walk reaches such a turn, and re-takes the fingerprint on it, is stated on an unchanged dict by `Iteration.UnsafeWalkAsWritten`; a walk resumed from the cursor that the store left behind is not modelled.

## Findings

| source | as written | input that shows it | evidently intended | confidence | as-written member | corrected member |
|---|---|---|---|---|---|---|
| dict.go:58-62 | `keyIndex` skips a table only when `idx > ht.size`. That never holds, since the index is at most `size - 1`, or 0 for a table never allocated. The bucket walk then indexes the empty slice of an unallocated table. | `Load(k)` on `New()`: table 0 has size 0 and `ht.buckets[0]` is out of range | skip a table that has no buckets (`idx >= ht.size`) | high; not executed | HashDict.GuardAsWrittenNeverFires | HashDict.Dict.KeyIndex |
| dict.go:187-193 | `nextPower` saturates only at `size >= math.MaxUint64`. For any request strictly between 2^63 and 2^64-1 the loop doubles `i` to 2^63, which wraps to 0, and `i < size` then stays true forever. | `nextPower(2^63 + 1)` does not return | return the saturated value for every request above 2^63 | high; not executed | Capacity.NextPowerSpinsAboveHalf | Capacity.NextPower |
| dict.go:253, 274-281 | `waitFirstInteration` is never cleared, so the first-step block runs on every turn of `next` that starts without an entry. A safe iterator increments `iterators` once per bucket and once more at the end, but `release` decrements it once. From then on `rehashStep` never runs. | `New()`, `Store(0, 0)`, then `RangeSafely` with a callback that answers true: 5 increments and 1 decrement leave `iterators == 4` | register and snapshot once, on the first call of `next` | high; not executed | Iteration.SafeWalkAsWritten | Iteration.Iterator.FirstStep |
| dict.go:274-281, 306-310 | For an unsafe iterator the same never-cleared flag makes `next` take the fingerprint again on every turn that starts without an entry, the turn that ends the walk included. `release` then compares the dict's metadata with a copy taken after every change. | `New()`, `Store(0, 0)`, an unsafe iterator takes its first entry, `Store(1, 1)`, the walk runs to its end: the count in table 0 changed, yet `release` does not panic | take the fingerprint once, on the first call of `next`, so that `release` panics | high; not executed | Scenarios.UnsafeWalkMissesStore | Scenarios.UnsafeIteratorSeesStore |
