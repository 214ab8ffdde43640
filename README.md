# eXpress: fragment-mass table and the `proto::Target` message

This project is a Dafny model of two self-contained pieces of the eXpress
read-assignment tool, with proofs about each.

- **`FragMassTable`** (`fragmasstable.dfy`, module `FragMass`) computes the
  fragment-mass recurrence. Its live state is a triple: the count of observed
  fragments `_n`, the logged mass of the next fragment `_mass_n` and the
  logged cumulative mass `_cum_mass_n`. As `_n` grows, the class appends
  snapshots of that triple to three parallel tables. A later lookup
  returns the nearest stored count without going over, so a caller can
  replay the recurrence from there.
- **`proto::Target`** (`targets.dfy`, module `Targets`, over the wire
  vocabulary in `wire.dfy`, module `Wire`) is the generated protocol-buffer
  message with these fields:
  - an optional string `name` (field 1);
  - required uint32 fields `id` (2) and `length` (3);
  - repeated uint32 fields `bias_indices_l` (4) and `bias_indices_r` (5).

  Each scalar field has a presence bit. The model covers construction,
  `Clear`, `MergeFrom`, `CopyFrom`, `Swap`, `IsInitialized`, the serialiser,
  `ByteSize` and the field switch of the parser.

How the model is built:

- **Masses are abstract.** The table is generic in the mass type `M`. The
  header does not show the floating-point recurrence, the log-domain
  addition or the checkpoint-spacing rule. They are the three total
  functions of a `Recurrence<M>` value fixed at construction.
  - `MassAt(k)` and `CumAt(k)` are the trajectory the live triple follows.
  - The class invariant `Valid()` states four things. The tables have equal
    length and start with a seeded entry for count 0. `_n_table` strictly
    increases and its last entry is at most `_n`. The live triple is
    `(n, MassAt(n), CumAt(n))`. Every entry `i` holds
    `MassAt(_n_table[i])` and `CumAt(_n_table[i])`.
- **A message is a token stream.** The message's state is the value
  `Record`, and the `Target` class keeps it in mutable fields.
  - Serialisation writes a sequence of `(field number, payload)` tokens.
  - Sizes are the concrete varint sizes of those tokens. `UInt32Size`,
    `StringSize` and the size of the unknown fields are defined that way
    rather than left uninterpreted.
  - Presence is kept as three flags. `PresenceWord` packs them into the
    `_has_bits_[0]` word, and `PresenceBits` proves the mask tests the
    generated code makes.

Some source behaviour is not shown and had to be interpreted:

- **When a table entry is appended.** The comment on `next_frag_mass()`
  (src/fragmasstable.h:77-79) says `_n` "is incremented by 1 (after all
  other changes)" before it mentions the table append. Read literally, the
  append comes before the increment, so an entry would pair the old count
  with the new masses.
  - The model instead appends after the increment, storing the post-update
    triple `(_n, _mass_n, _cum_mass_n)`.
  - It reads "all other changes" as the mass and cumulative-mass updates,
    because `nearest_stored_mass` (src/fragmasstable.h:96-99) promises the
    masses "for returned number of fragments". That is the same pairing of
    count and masses the live triple has, and only the post-update triple
    keeps it.
- **Which mass the cumulative mass absorbs.** The field comments call
  `_mass_n` the "mass for the next observed fragment" and `_cum_mass_n` the
  mass of "the first n fragments" (src/fragmasstable.h:38, 43). Read
  together, a step would add the OLD `_mass_n` to the cumulative mass.
  - The comment on `next_frag_mass()` (src/fragmasstable.h:77-78) describes
    the steps in order: update `_mass_n`, also update `_cum_mass_n`, then
    return the updated mass.
  - The model follows that order, so each step adds the NEW mass, the one it
    returns (`NextFragMass`, `CumAt`, `LiveCumIsLogSum`).
- **The binary search.** The body of `n_to_index` is not shown, so the
  search loop in `NToIndex` is this model's own. `FloorIndex` is an
  independent reference definition that scans from the last entry down,
  and `NToIndex` is proved to agree with it.

## Model

| member | source | states |
|---|---|---|
| FragMass.FragMassTable.constructor | src/fragmasstable.h:70-74 | builds a valid table whose live state is the seed at count 0, with exactly one table entry `(0, mass0, cumMass0)` |
| FragMass.FragMassTable.NextFragMassAt | src/fragmasstable.h:84-90 | `next_frag_mass(n, curr_mass)`: a function with no `reads` clause, so its result depends only on its two arguments (and the fixed recurrence) and it changes nothing; it is the step both `NextFragMass` and `Replay` apply |
| FragMass.FragMassTable.NextFragMass | src/fragmasstable.h:76-82 | count goes up by exactly one; new mass is the recurrence applied to the old count and old mass, and is returned (and recorded in the ghost history); cumulative mass is the log-sum of the old one and the new mass; tables grow only by appending the post-update triple, exactly when the index is reached, and old entries are unchanged; the invariant is kept |
| FragMass.FragMassTable.NToIndex | src/fragmasstable.h:62-67 | returns the index of the largest stored count not above `q` (floor property), equal to the reference `FloorIndex`; reads only |
| FragMass.FragMassTable.NearestStoredMass | src/fragmasstable.h:92-101 | returned count is stored and not above `q`, and no stored count lies between it and `q`; exact hit on a stored count returns it; a query at or past the last entry returns the last entry; the returned masses are the ones stored for that count and equal the trajectory's values there; changes nothing |
| FragMass.FloorIndex | src/fragmasstable.h:62-67 | reference floor lookup over a strictly increasing table: result satisfies the floor property |
| FragMass.FloorIndexUnique | src/fragmasstable.h:62-67 | in a strictly increasing table the floor index is unique |
| FragMass.FloorMonotone | src/fragmasstable.h:92-101 | lookup is monotone: a larger query never returns a smaller index or stored count |
| FragMass.FloorExactHit | src/fragmasstable.h:92-101 | querying a stored count returns that entry's own index |
| FragMass.FragMassTable.ReplayFromState | src/fragmasstable.h:16-20 | replaying the recurrence `j` steps from the state at count `k` reaches exactly the state at `k + j` |
| FragMass.FragMassTable.CatchUp | src/fragmasstable.h:16-20 | from the entry returned for `q`, replaying `q - k` steps with `next_frag_mass(n, curr_mass)` gives the state at `q`; at the live count it gives the live mass and cumulative mass |
| FragMass.FragMassTable.CumIsLogSum | src/fragmasstable.h:42-45 | the cumulative mass after `k` steps is the in-order log-domain sum of the seed and the `k` step masses |
| FragMass.FragMassTable.LiveCumIsLogSum | src/fragmasstable.h:76-82 | the live cumulative mass is the in-order log-domain sum of the seed and the masses the calls of `next_frag_mass()` actually returned |
| Wire.VarintSizeUInt32 | src/proto/targets.pb.cc:388-390 | a uint32 varint never needs more than five bytes |
| Wire.UInt32Size | src/proto/targets.pb.cc:388-390 | a uint32 payload is one to five bytes |
| Wire.StringSize | src/proto/targets.pb.cc:381-383 | a string payload is longer than its contents (length prefix plus bytes) |
| Wire.TokenSize | src/proto/targets.pb.cc:381-398 | a field with number 1..15 costs one tag byte plus its payload |
| Wire.TokensSizeAppend | src/proto/targets.pb.cc:421-425 | the encoded size of concatenated token streams is the sum of their sizes |
| Targets.PresenceBits | src/proto/targets.pb.cc:474-478 | the presence-word tests `& 0x1`, `& 0x2`, `& 0x4`, `& 0xff` and `& 0x6 == 0x6` hold exactly when name, id, length, any scalar, and both required fields are present |
| Targets.Target.constructor | src/proto/targets.pb.cc:111-131 | a fresh message has no presence bits, zero scalars, empty name and lists, cached size 0 |
| Targets.Target.Copy | src/proto/targets.pb.cc:119-123 | the copy constructor yields a message equal to its source in every field and presence bit |
| Targets.Target.Clear | src/proto/targets.pb.cc:165-179 | the new state is the guarded reset of the old one, which is the freshly constructed state; cached size untouched |
| Targets.ClearedIsEmpty | src/proto/targets.pb.cc:165-179 | for any message that keeps the default-when-absent invariant, the guarded reset yields the constructed state |
| Targets.Target.MergeFrom | src/proto/targets.pb.cc:444-460 | requires `from != this`; the new state is `Merged(old, from)`; the invariant is kept; cached size untouched |
| Targets.Target.MergeScalarsFrom | src/proto/targets.pb.cc:448-458 | under the any-scalar guard, each scalar present in `from` overwrites and becomes present; the other fields are outside its frame |
| Targets.MergedFields | src/proto/targets.pb.cc:444-460 | merge field by field: both lists and the unknown fields are appended in order; a scalar present in `from` takes `from`'s value; an absent one keeps the target's value and flag |
| Targets.MergePreservesCanonical | src/proto/targets.pb.cc:444-460 | merging keeps the invariant that an absent scalar holds its default |
| Targets.MergeAssociative | src/proto/targets.pb.cc:444-460 | merging is associative |
| Targets.MergeIntoEmpty | src/proto/targets.pb.cc:119-123 | merging a message into the constructed state yields that message |
| Targets.CopyYieldsSource | src/proto/targets.pb.cc:468-472 | Clear followed by MergeFrom yields the source, whatever the target held |
| Targets.Target.CopyFrom | src/proto/targets.pb.cc:468-472 | afterwards the message equals the source in every field and presence bit; copying onto itself changes nothing |
| Targets.Target.IsInitialized | src/proto/targets.pb.cc:474-478 | true exactly when both required fields `id` and `length` are present; name and lists are irrelevant |
| Targets.Target.Swap | src/proto/targets.pb.cc:480-491 | exchanges every field, presence bit and cached size of the two messages; a self-swap changes nothing |
| Targets.Target.SwapScalars | src/proto/targets.pb.cc:482-487 | exchanges name, id, length and the three presence bits |
| Targets.Target.SwapRepeated | src/proto/targets.pb.cc:485-488 | exchanges both repeated fields and the unknown fields |
| Targets.SwapTwice | src/proto/targets.pb.cc:480-491 | swapping twice restores both messages |
| Targets.RepeatedTokens | src/proto/targets.pb.cc:316-326 | one token per repeated element |
| Targets.RepeatedTokensAt | src/proto/targets.pb.cc:316-326 | token `i` of a repeated field carries element `i` under that field number |
| Targets.WriteRepeated | src/proto/targets.pb.cc:316-326 | the index loop appends exactly the repeated field's tokens, in index order |
| Targets.ScalarTokensOrdered | src/proto/targets.pb.cc:297-314 | the present scalars are written with field numbers in 1..3, strictly increasing |
| Targets.SerializedInFieldOrder | src/proto/targets.pb.cc:295-332 | the output is the known fields followed by the unknown fields, and the known fields' numbers lie in 1..5 and never decrease |
| Targets.Target.SerializeWithCachedSizes | src/proto/targets.pb.cc:295-332 | writes the present scalars in field order, each repeated field element by element, then the unknown fields |
| Targets.DataSize | src/proto/targets.pb.cc:401-409 | a repeated field's data size lies between 1 and 5 bytes per element |
| Targets.RepeatedDataSize | src/proto/targets.pb.cc:403-407 | the `data_size` loop computes the sum of the element sizes |
| Targets.Target.ScalarsByteSize | src/proto/targets.pb.cc:378-400 | the guarded scalar block adds one tag byte plus the payload size for each present scalar |
| Targets.Target.ByteSize | src/proto/targets.pb.cc:375-430 | returns the field-by-field size sum, stores it as the cached size, and it equals the encoded size of what the serialiser writes |
| Targets.RepeatedTokensSize | src/proto/targets.pb.cc:401-419 | a repeated field's encoded size is one byte per element plus its data size |
| Targets.ScalarTokensSize | src/proto/targets.pb.cc:378-400 | the scalar block's size is the encoded size of the scalar tokens |
| Targets.ByteSizeIsSerializedSize | src/proto/targets.pb.cc:375-430 | `ByteSize()`'s sum equals the encoded size of `SerializeWithCachedSizes`'s output |
| Targets.MergeToken | src/proto/targets.pb.cc:186-289 | the field switch for one token: it fails exactly on a packed field 4 or 5 whose contents do not decode; an unrecognised token is appended to the unknown fields, and only such a token; the repeated fields only grow |
| Targets.MergeTokens | src/proto/targets.pb.cc:185-291 | the read loop: a stream without packed fields always parses; a successful parse only extends both repeated fields and the unknown fields |
| Targets.ParseStopsAtEndTag | src/proto/targets.pb.cc:185 | reading tag 0 ends the loop with success: that token and everything after it are ignored |
| Targets.ParseEndsAtEndTag | src/proto/targets.pb.cc:185-291 | a stream holding tag 0 parses like its part before the tag |
| Targets.MergeTokensAppend | src/proto/targets.pb.cc:185-290 | parsing a concatenation that has no tag 0 in its first part is parsing the first part, then the second from the result |
| Targets.KnownTokensInRange | src/proto/targets.pb.cc:297-326 | every token the serialiser writes for a known field carries a field number in 1..5 (so never tag 0) |
| Targets.RepeatedTokensField | src/proto/targets.pb.cc:316-326 | every token of a repeated field carries that field's number |
| Targets.ParseScalars | src/proto/targets.pb.cc:187-233 | parsing the scalar tokens of `from` performs the scalar half of MergeFrom |
| Targets.ParseRepeated | src/proto/targets.pb.cc:235-277 | parsing a repeated field's unpacked tokens appends its elements in order |
| Targets.ParseUnknown | src/proto/targets.pb.cc:279-288 | tokens the field switch does not recognise, none of them tag 0, are kept in order as unknown fields |
| Targets.ParseIsMerge | src/proto/targets.pb.cc:181-293 | parsing the serialisation of `from` into any message is exactly `MergeFrom(from)`, for unknown fields that are neither recognised nor tag 0 |
| Targets.RoundTrip | src/proto/targets.pb.cc:181-332 | parsing a message's serialisation into a fresh message gives back the message, under the same condition on unknown fields |

## Left out

- The floating-point formulas of the mass recurrence and log-domain addition, and the value of `_ff_param`. They live in an implementation file that is not part of this model. They are the `step` and `logAdd` functions of `Recurrence`, and the forgetting factor is folded into `step`.
- The checkpoint-spacing rule and any bound on table size, for the same reason. The rule is the `indexReached` predicate of `Recurrence`.
- `FragMass.FragMassTable.constructor`: the real constructor takes only `ff_param`, and its body is not shown. The model takes the recurrence and the seed `(mass0, cumMass0)` as parameters and seeds the count-0 entry.
- `INT_BIT` (src/fragmasstable.h:14) is declared but not used by any modelled operation.
- `size_t` wrap-around of `_n` and of table indices: counts are unbounded naturals.
- Descriptor and reflection registration, static initialisation, `GetMetadata` and `New`: library plumbing with global state.
- `MergeFrom(const Message&)` and `CopyFrom(const Message&)`: they dispatch through `dynamic_cast` and `ReflectionOps`, which are foreign calls.
- Byte-level encoding and decoding. `SerializeWithCachedSizesToArray` is the same token sequence written to an array. The parser is modelled on token streams, and these parts of it are left out:
  - malformed input: truncated varints and bad lengths (tag 0, which ends the read loop with success, is modelled);
  - the `ExpectTag`/`ExpectAtEnd` fast paths, which reach the same cases as the switch;
  - groups and the `END_GROUP` stop;
  - UTF-8 verification, which only logs.
- Decoding a packed repeated field is the `unpack` parameter. Its failure fails the parse.
- `Targets.ParseIsMerge`: requires that `from`'s unknown fields are neither tokens the field switch recognises nor tag 0 (field 0, varint). This holds for every unknown field the parser collects. An unknown field set by other means that is tag 0 would be written out, and the parse would then stop at it. The same restriction applies to `Targets.RoundTrip` and `Targets.ParseUnknown`.
- `SetCachedSize`, `GetCachedSize` and the concurrent-write macros: these exist for concurrency. The cached size is a plain field.
- `SharedDtor`, the destructor and `name_`'s pointer identity against `kEmptyString`: memory management. `Clear` therefore always empties a present name.
- `Targets.Target.ByteSize`: does not model overflow of the C++ `int` total for messages over 2^31 bytes; sizes are unbounded integers.
- `Wire.StringSize`: string lengths are not bounded by 2^32.
- Presence bits other than bits 0–2 of `_has_bits_[0]`: this message defines no others.
