# Multisignature container and event utilities, in Dafny

This project models two pieces of a Cosmos SDK fork:

- **The multisignature container** of `crypto/multisig/multisignature.go`. A multisignature pairs a participation bitmap (one position per member of the signing group) with the list of the signatures present. That list is kept in ascending member order, whatever order the signatures arrive in. The model covers:
  - `NewMultisig`;
  - the key lookup `getIndex`;
  - `AddSignature`, which replaces the entry of a member already present, or sets the member's bit and inserts its entry at its slot (by appending, or by growing the list and shifting the tail);
  - `AddSignatureFromPubKey`.
- **The event utilities** of `types/events.go`. The model covers:
  - the `EventManager` that collects the events a transaction emits, including the all-or-nothing `EmitTypedEvents`;
  - the construction of events and their attributes;
  - the conversion between byte-keyed ABCI events and string events;
  - `Flatten`, which groups the attributes of string events by event type, in ascending type order;
  - `MarkEventsToIndex`, which sets each attribute's index flag from an index set of `"<type>.<key>"` strings.

Modules:

| module | file | models |
|---|---|---|
| `GoTypes` | `go_types.dfy` | bytes, `Option`, `Result` |
| `BitArray` | `bitarray.dfy` | the CompactBitArray as the sequence of its positions: `NumTrueBitsBefore`, setting a position, counting |
| `Multisig` | `multisignature.dfy` | the container: the `Container` value with its specification function `Added`, and the `MultiSignature` class updated in place |
| `ByteStrings` | `bytestrings.dfy` | Go's `<` on strings and `sort.Strings` |
| `Events` | `events.dfy` | `Event`, `EventAttribute`, `Attribute`, `StringEvent`, the `EventManager` class, `MarkEventsToIndex` |
| `StringEvents` | `stringevents.dfy` | `Flatten` and `StringifyEvents` |

Go strings and `[]byte` are both `seq<uint8>`, so `string(b)` and `[]byte(s)` are identities.

The container's invariant is `SortedBySigner`:
- the bits set are exactly the signers recorded;
- the first `CountTrue` entries of the list are their signatures, in ascending member order.

`AddSignature` is proved against the function `Added`. Lemmas about `Added` and about `AddAll` (a series of additions) prove three things:
- the invariant is kept;
- the result does not depend on the order in which distinct signers arrive;
- the number of entries beyond the signed prefix never changes.

The source's own comments expect one entry per signer. The comment on the Amino type (line 13) calls the list "a list of signatures, sorted by corresponding index". The comment "Optimization if the index is the greatest index" (line 44) expects the list to end exactly at the slot of a new highest signer. The code differs: `NewMultisig` (line 21) makes the list with `make(..., n)`, so it starts with `n` nil entries, and these stay behind the signatures. The model follows the code. Its invariant therefore constrains only the signed prefix, and it keeps `|signatures| - CountTrue` constant. The discrepancy is recorded under Findings.

## Model

| member | source | states |
|---|---|---|
| BitArray.NumTrueBitsBefore | crypto/multisig/multisignature.go:37 | the slot of a position is at most the position and at most the number of signers present |
| BitArray.NewBitArray | crypto/multisig/multisignature.go:21 | a fresh bitmap has `n` positions, all clear, and counts zero |
| BitArray.CountTrueMonotone | crypto/multisig/multisignature.go:37 | counting over a longer prefix gives no less, and strictly more once it covers an extra set position |
| BitArray.RankBelowCount | crypto/multisig/multisignature.go:39-40 | a present signer's slot lies inside the signed prefix, so the replacing write is in range |
| BitArray.RankStrictlyIncreasing | crypto/multisig/multisignature.go:13 | distinct present signers get distinct slots, in member order |
| BitArray.CountTrueSet | crypto/multisig/multisignature.go:43 | setting a clear position adds exactly one signer |
| Multisig.NewContainer | crypto/multisig/multisignature.go:20-22 | NewMultisig: `n` clear positions and `n` nil entries |
| Multisig.Added | crypto/multisig/multisignature.go:36-54 | AddSignature sets the bit of `index` and leaves every other bit alone; the list keeps its length for a signer already present and grows by one for a new one; the entries past the signed prefix are untouched |
| Multisig.SignedInOrder | crypto/multisig/multisignature.go:13 | the signatures of the present signers, in member order, one per set bit |
| Multisig.SignedInOrderInsert | crypto/multisig/multisignature.go:49-53 | a new signer's signature goes in at its slot of the member-ordered list |
| Multisig.SignedInOrderReplace | crypto/multisig/multisignature.go:39-40 | re-signing replaces only the signer's own slot of the member-ordered list |
| Multisig.AddedReplaceKeepsOrder | crypto/multisig/multisignature.go:38-42 | the replacing branch keeps the list sorted by member |
| Multisig.AddedInsertKeepsOrder | crypto/multisig/multisignature.go:43-53 | the inserting branches keep the list sorted by member, with the new signer recorded |
| Multisig.AddedKeepsOrder | crypto/multisig/multisignature.go:34-54 | after AddSignature the signed prefix holds every present signer's latest signature in ascending member order |
| Multisig.SortedBySignerDetermines | crypto/multisig/multisignature.go:13 | a container is fixed by its signers, their signatures, its size and the entries past the signed prefix |
| Multisig.AddAll | crypto/multisig/multisignature.go:36-54 | a series of AddSignature calls keeps the bitmap size, the surplus of entries over signers and the entries past the signed prefix |
| Multisig.AddAllKeepsOrder | crypto/multisig/multisignature.go:13 | any series of additions keeps the list sorted by member, each signer with its last signature |
| Multisig.LatestOfDistinct | crypto/multisig/multisignature.go:34-35 | with distinct signers each present signer holds exactly the signature it was added with |
| Multisig.ArrivalOrderIrrelevant | crypto/multisig/multisignature.go:13 | adding the same distinct signers in any two orders to a fresh container gives the same container, sorted by member |
| Multisig.ScenarioFirstArrival | crypto/multisig/multisignature.go:43-53 | member 2 signing a fresh 3-member container takes slot 0, ahead of the 3 nil entries |
| Multisig.ScenarioSecondArrival | crypto/multisig/multisignature.go:49-53 | member 0 signing after member 2 is shifted in ahead of it |
| Multisig.ScenarioOutOfOrderArrival | crypto/multisig/multisignature.go:20-54 | C then A gives bitmap `[true, false, true]` and list `[sigA, sigC, nil, nil, nil]` |
| Multisig.NilEntriesNeverLeave | crypto/multisig/multisignature.go:21 | as written, the list is always `n` entries longer than the number of signers, so no slot equals the list length |
| Multisig.NewContainerEmpty | crypto/multisig/multisignature.go:20-22 | the corrected NewMultisig: `n` clear positions and no entries |
| Multisig.AddAllFromEmptyIsExact | crypto/multisig/multisignature.go:13 | started from the corrected container, the list holds exactly one entry per signer, sorted by member |
| Multisig.FirstIndex | crypto/multisig/multisignature.go:24-32 | the first position holding the key, or -1 exactly when no position holds it |
| Multisig.FirstIndexIsFirstMatch | crypto/multisig/multisignature.go:26-30 | a matching position with no match before it is the first index |
| Multisig.GetIndex | crypto/multisig/multisignature.go:25-32 | the linear search returns the first matching position, or -1 |
| Multisig.InsertShifting | crypto/multisig/multisignature.go:49-53 | growing by a dummy entry, copying the tail one place right and filling the gap inserts `sig` at the slot |
| Multisig.MultiSignature.constructor | crypto/multisig/multisignature.go:20-22 | the new object is NewMultisig's container, valid, with no signer recorded |
| Multisig.MultiSignature.AddSignature | crypto/multisig/multisignature.go:36-54 | the object becomes `Added` of its old state, stays sorted by member, and records `sig` as the signature of `index` |
| Multisig.MultiSignature.AddSignatureFromPubKey | crypto/multisig/multisignature.go:58-71 | an error naming the key and all keys exactly when the key is absent, with nothing changed; otherwise AddSignature at the key's first position |
| ByteStrings.LessIrreflexive | types/events.go:326 | no string sorts before itself |
| ByteStrings.LessAsymmetric | types/events.go:326 | two strings are never each before the other |
| ByteStrings.LessTotal | types/events.go:326 | any two strings are equal or ordered |
| ByteStrings.LessTransitive | types/events.go:326 | the string order is transitive |
| ByteStrings.Insert | types/events.go:326 | inserting into a sorted list gives a sorted list with one more copy of the string |
| ByteStrings.SortStrings | types/events.go:326 | sort.Strings gives the same strings in ascending order |
| ByteStrings.NoRepeats | types/events.go:319-324 | keys collected once each are pairwise distinct |
| ByteStrings.SortedDistinctIsStrict | types/events.go:319-326 | sorted distinct keys are strictly ascending |
| ByteStrings.StrictlySortedUnique | types/events.go:326 | two strictly ascending lists of the same strings are equal |
| Events.KVPairsRoundTrip | types/events.go:238-240 | stringifying the pairs ToKVPair made gives back the attributes |
| Events.AttributesOfRoundTrip | types/events.go:238-240 | converting ABCI attributes to string pairs and back loses only the index flag |
| Events.ToKVPair | types/events.go:238-240 | the pair carries the attribute's key and value and is not marked for indexing |
| Events.IndexKey | types/events.go:373 | the lookup key is the event type, one dot, then the attribute key |
| Events.IndexKeyUnambiguous | types/events.go:373 | for dot-free event types, equal lookup keys mean the same type and the same attribute key |
| Events.NewEvent | types/events.go:213-221 | the event has the given type and one unindexed pair per attribute, in order |
| Events.AppendAttributes | types/events.go:243-248 | the event keeps its type and its attributes, followed by the new pairs in order |
| Events.StringifyEvent | types/events.go:335-346 | the string event has the same type and one string pair per attribute, in order |
| Events.AppendEvent | types/events.go:251-253 | the list grows by one: the old events, then the new one |
| Events.AppendEvents | types/events.go:256-258 | the old events, then the new ones, in order |
| Events.ToABCIEvents | types/events.go:262-269 | one ABCI event per event, same position, same type and attributes |
| Events.MarkEventsToIndex | types/events.go:362-387 | same events, types, keys and values in order; an attribute is marked exactly when the index set is empty or holds `"<type>.<key>"` |
| Events.ConvertAll | types/events.go:68-76 | all conversions succeed and give the events in order, or the result is the error of the first failing conversion |
| Events.EventManager.constructor | types/events.go:33-35 | a new manager holds no events |
| Events.EventManager.Events | types/events.go:37 | the events emitted so far |
| Events.EventManager.EmitEvent | types/events.go:41-43 | the event is stored after every earlier one |
| Events.EventManager.EmitEvents | types/events.go:47-49 | the events are stored, in order, after every earlier one |
| Events.EventManager.ABCIEvents | types/events.go:52-54 | one ABCI event per stored event, same type and attributes |
| Events.EventManager.EmitTypedEvent | types/events.go:57-65 | a failed conversion returns its error and stores nothing; otherwise the converted event is stored |
| Events.EventManager.EmitTypedEvents | types/events.go:68-80 | all or nothing: the first failing conversion's error and no event stored, or every converted event stored in order |
| StringEvents.GatherAbsent | types/events.go:316-318 | a type no event has gathers no attributes |
| StringEvents.GroupByType | types/events.go:314-318 | one map entry per event type occurring, holding all attributes of that type in event order |
| StringEvents.KeysOf | types/events.go:319-324 | each map key exactly once |
| StringEvents.EventsOfKeys | types/events.go:327-329 | one string event per key, in key order, with that key's attributes |
| StringEvents.FlatteningOfGroups | types/events.go:313-332 | events built from the sorted keys of the grouping form the flattening |
| StringEvents.Flatten | types/events.go:313-332 | one event per occurring type, types strictly ascending, each with all attributes of its type in order |
| StringEvents.StringifyEvents | types/events.go:350-358 | the flattening of the stringified events |
| StringEvents.FlatteningUnique | types/events.go:313-332 | the flattening of a list is unique |
| StringEvents.GatheredCountTotal | types/events.go:316-318 | gathering over all occurring types covers every attribute once |
| StringEvents.TotalOfGathered | types/events.go:327-329 | the flattened events hold as many attributes as gathered for their types |
| StringEvents.FlatteningKeepsAttributeCount | types/events.go:313-332 | flattening neither drops nor duplicates attributes |

## Left out

- Verification of a multisignature (`VerifyMultisignature`, the threshold check) is not part of this model. `crypto/multisig/multisig.go` only declares the key interface.
- The CompactBitArray's packed bytes and its wire encoding are left out. A bitmap is the sequence of its positions.
- The Amino multisignature type is left out. It is a declaration only.
- Multisig.MultiSignature.AddSignature requires `0 <= index < n`. In Go, with an index outside the bitmap, `GetIndex` reports the position as clear and `SetIndex` ignores the write. The slot is still at most the number of signers, so the list does not panic: `sig` is inserted at that slot with no bit set. The list then holds one more entry than before beyond the signers, and entries no longer match members slot for slot. That path is not modelled.
- Multisig.MultiSignature.AddSignatureFromPubKey: public keys are an abstract type with equality (`Equals`). The error carries the key and the key list rather than the `%X` hex text `fmt.Errorf` formats from them. The key's first position must lie inside the bitmap, as the caller's key list matches the group.
- Multisig.SignatureData: nested multisignature entries are left out. An entry is nil or a single signature.
- Go's slice capacity and aliasing are left out. `append` is modelled as building a new sequence, and `copy` is modelled by its backward element loop.
- `TypedEventToEvent`, `ParseTypedEvent` and the block/transaction result conversions are not part of this model. They depend on protobuf reflection and JSON. `EmitTypedEvent(s)` take the conversion as a parameter.
- `toBytes` accepts only strings and bytes and panics otherwise. Only string keys are modelled, so the panic is left out.
- `NewAttribute` and `EmptyEvents` are plain record and empty-list constructors, written directly as `Attribute(k, v)` and `[]`.
- The `String` methods of `Attribute` and `StringEvents` are left out, because they are text formatting.
- `StringEvents.Flatten` does not distinguish a nil attribute slice from an empty one.
- `x/authz` (the callers of the event manager) is not part of this model.

## Findings

| source | as written | input that shows it | evidently intended | confidence | as-written member | corrected member |
|---|---|---|---|---|---|---|
| crypto/multisig/multisignature.go:21 | `make([]tx.SignatureV2, n)` creates `n` nil entries, which AddSignature then keeps behind the signatures; the append branch at line 45 can never be taken | members A, B, C; C signs, then A: the list is `[sigA, sigC, nil, nil, nil]` | an empty list with capacity `n` (`make(..., 0, n)`), so that the list holds exactly one entry per set bit, in member order (`[sigA, sigC]`) | medium, not executed | Multisig.NilEntriesNeverLeave | Multisig.AddAllFromEmptyIsExact |

The model's class keeps the constructor as written. Every property of `Added` and `AddAll` is stated for any surplus of entries over signers, so it holds for the as-written container and for the corrected one.
