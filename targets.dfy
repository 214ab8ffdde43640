/** The generated protocol-buffer message proto::Target: an optional string
    `name` (field 1), required uint32 `id` (2) and `length` (3), and repeated
    uint32 `bias_indices_l` (4) and `bias_indices_r` (5), with one presence bit
    per scalar field in the word `_has_bits_[0]` (bit 0 name, bit 1 id, bit 2
    length). The value-level functions below say what each operation of the
    class at the end of the module computes. */
module Targets {
  import opened Wire

  /** The whole observable state of a Target except its cached size. The
      three presence flags are bits 0 (name), 1 (id) and 2 (length) of
      `_has_bits_[0]`, the only bits this message defines. */
  datatype Record = Record(
    name: Bytes,
    id: uint32,
    length: uint32,
    biasIndicesL: seq<uint32>,
    biasIndicesR: seq<uint32>,
    hasName: bool,
    hasId: bool,
    hasLength: bool,
    unknownFields: seq<Token>)

  /** The presence word `_has_bits_[0]` for the three presence flags. */
  function PresenceWord(hasName: bool, hasId: bool, hasLength: bool): bv32 {
    (if hasName then 0x1 else 0) | (if hasId then 0x2 else 0) | (if hasLength then 0x4 else 0)
  }

  function HasBits(r: Record): bv32 {
    PresenceWord(r.hasName, r.hasId, r.hasLength)
  }

  /** The bit tests the generated code makes on the presence word. */
  lemma PresenceBits(r: Record)
    ensures (HasBits(r) & 0x1 != 0) <==> r.hasName
    ensures (HasBits(r) & 0x2 != 0) <==> r.hasId
    ensures (HasBits(r) & 0x4 != 0) <==> r.hasLength
    ensures (HasBits(r) & 0xFF != 0) <==> AnyScalarPresent(r)
    ensures (HasBits(r) & 0x6 == 0x6) <==> r.hasId && r.hasLength
  {
  }

  /** The test `_has_bits_[0] & 0xff` that guards the scalar part of Clear,
      MergeFrom and ByteSize. */
  predicate AnyScalarPresent(r: Record) {
    r.hasName || r.hasId || r.hasLength
  }

  /** The state SharedCtor establishes: nothing present, scalars at their defaults. */
  function Empty(): Record {
    Record([], 0, 0, [], [], false, false, false, [])
  }

  /** The invariant the generated accessors keep: an absent scalar holds its default. */
  ghost predicate Canonical(r: Record) {
    && (!r.hasName ==> r.name == [])
    && (!r.hasId ==> r.id == 0)
    && (!r.hasLength ==> r.length == 0)
  }

  // set_name, set_id, set_length: store the value and mark the field present.
  function SetName(r: Record, v: Bytes): Record { r.(name := v, hasName := true) }
  function SetId(r: Record, v: uint32): Record { r.(id := v, hasId := true) }
  function SetLength(r: Record, v: uint32): Record { r.(length := v, hasLength := true) }

  /** Appends vs to repeated field 4 (bias_indices_l) or 5 (bias_indices_r). */
  function AppendBias(r: Record, field: nat, vs: seq<uint32>): Record
    requires field == 4 || field == 5
  {
    if field == 4 then r.(biasIndicesL := r.biasIndicesL + vs)
    else r.(biasIndicesR := r.biasIndicesR + vs)
  }

  /** Clear(): the scalars are reset only when some bit of the first presence
      byte is set, and the string only when it is present; then every presence
      bit, both repeated fields and the unknown fields are cleared. */
  function Cleared(r: Record): Record {
    var scalars :=
      if AnyScalarPresent(r) then
        (if r.hasName then r.(name := []) else r).(id := 0, length := 0)
      else r;
    scalars.(biasIndicesL := [], biasIndicesR := [], hasName := false, hasId := false,
             hasLength := false, unknownFields := [])
  }

  /** The scalar half of MergeFrom(const Target&): each scalar present in
      `from` overwrites the one in r and becomes present there. */
  function MergeScalars(r: Record, from: Record): Record {
    if !AnyScalarPresent(from) then r
    else
      var r1 := if from.hasName then SetName(r, from.name) else r;
      var r2 := if from.hasId then SetId(r1, from.id) else r1;
      if from.hasLength then SetLength(r2, from.length) else r2
  }

  /** MergeFrom(const Target&): repeated fields are appended, present scalars
      overwrite, and the unknown fields of `from` are appended. */
  function Merged(into: Record, from: Record): Record {
    var lists := into.(biasIndicesL := into.biasIndicesL + from.biasIndicesL,
                       biasIndicesR := into.biasIndicesR + from.biasIndicesR);
    var r := MergeScalars(lists, from);
    r.(unknownFields := r.unknownFields + from.unknownFields)
  }

  // ---------------------------------------------------------------------------
  // Serialisation as a token stream

  /** One token per element, in index order. */
  function RepeatedTokens(field: nat, vs: seq<uint32>): (ts: seq<Token>)
    ensures |ts| == |vs|
  {
    if vs == [] then []
    else RepeatedTokens(field, vs[..|vs| - 1]) + [Token(field, Varint(vs[|vs| - 1] as nat))]
  }

  function NameTokens(r: Record): seq<Token> {
    if r.hasName then [Token(1, Delimited(r.name))] else []
  }

  function IdTokens(r: Record): seq<Token> {
    if r.hasId then [Token(2, Varint(r.id as nat))] else []
  }

  function LengthTokens(r: Record): seq<Token> {
    if r.hasLength then [Token(3, Varint(r.length as nat))] else []
  }

  /** The present scalars, in field order. */
  function ScalarTokens(r: Record): seq<Token> {
    NameTokens(r) + IdTokens(r) + LengthTokens(r)
  }

  /** What SerializeWithCachedSizes writes: present scalars in field order, the
      two repeated fields element by element, then the unknown fields. */
  function Serialized(r: Record): seq<Token> {
    ScalarTokens(r) + RepeatedTokens(4, r.biasIndicesL) + RepeatedTokens(5, r.biasIndicesR)
    + r.unknownFields
  }

  lemma {:induction false} RepeatedTokensAt(field: nat, vs: seq<uint32>, i: nat)
    requires i < |vs|
    ensures RepeatedTokens(field, vs)[i] == Token(field, Varint(vs[i] as nat))
    decreases |vs|
  {
    if i < |vs| - 1 {
      RepeatedTokensAt(field, vs[..|vs| - 1], i);
    }
  }

  lemma ScalarTokensOrdered(r: Record)
    ensures var s := ScalarTokens(r);
      && (forall i :: 0 <= i < |s| ==> 1 <= s[i].fieldNumber <= 3)
      && (forall i, j :: 0 <= i < j < |s| ==> s[i].fieldNumber < s[j].fieldNumber)
  {
    var n, d, g := NameTokens(r), IdTokens(r), LengthTokens(r);
    var s := n + d + g;
    assert forall i :: 0 <= i < |n| ==> s[i].fieldNumber == 1;
    assert forall i :: |n| <= i < |n| + |d| ==> s[i].fieldNumber == 2;
    assert forall i :: |n| + |d| <= i < |s| ==> s[i].fieldNumber == 3;
  }

  /** The known fields are written in non-decreasing field-number order. */
  lemma {:induction false} SerializedInFieldOrder(r: Record)
    ensures var known := ScalarTokens(r) + RepeatedTokens(4, r.biasIndicesL) + RepeatedTokens(5, r.biasIndicesR);
      && Serialized(r) == known + r.unknownFields
      && forall i, j :: 0 <= i < j < |known| ==> 1 <= known[i].fieldNumber <= known[j].fieldNumber <= 5
  {
    var s := ScalarTokens(r);
    var l := RepeatedTokens(4, r.biasIndicesL);
    var rr := RepeatedTokens(5, r.biasIndicesR);
    var known := s + l + rr;
    ScalarTokensOrdered(r);
    forall k | 0 <= k < |known|
      ensures k < |s| ==> known[k] == s[k]
      ensures |s| <= k < |s| + |l| ==> known[k].fieldNumber == 4
      ensures |s| + |l| <= k ==> known[k].fieldNumber == 5
    {
      if |s| <= k < |s| + |l| {
        assert known[k] == l[k - |s|];
        RepeatedTokensAt(4, r.biasIndicesL, k - |s|);
      } else if |s| + |l| <= k {
        assert known[k] == rr[k - |s| - |l|];
        RepeatedTokensAt(5, r.biasIndicesR, k - |s| - |l|);
      }
    }
  }

  /** Every known token carries one of the five field numbers. */
  lemma KnownTokensInRange(r: Record)
    ensures var known := ScalarTokens(r) + RepeatedTokens(4, r.biasIndicesL) + RepeatedTokens(5, r.biasIndicesR);
      forall t :: t in known ==> 1 <= t.fieldNumber <= 5
  {
    RepeatedTokensField(4, r.biasIndicesL);
    RepeatedTokensField(5, r.biasIndicesR);
  }

  // ---------------------------------------------------------------------------
  // Sizes

  /** Sum of the payload sizes of a repeated uint32 field (the data_size loop). */
  function DataSize(vs: seq<uint32>): (k: nat)
    ensures |vs| <= k <= 5 * |vs|
  {
    if vs == [] then 0 else DataSize(vs[..|vs| - 1]) + UInt32Size(vs[|vs| - 1])
  }

  /** The guarded scalar block of ByteSize(): one tag byte plus the payload for each present scalar. */
  function ScalarsSize(r: Record): nat {
    if AnyScalarPresent(r) then
      (if r.hasName then 1 + StringSize(r.name) else 0)
      + (if r.hasId then 1 + UInt32Size(r.id) else 0)
      + (if r.hasLength then 1 + UInt32Size(r.length) else 0)
    else 0
  }

  /** ByteSize(): the scalar block, one tag byte per element plus the element
      sizes for each repeated field, and the size of the unknown fields. */
  function ByteSizeOf(r: Record): int {
    ScalarsSize(r)
    + (1 * |r.biasIndicesL| + DataSize(r.biasIndicesL))
    + (1 * |r.biasIndicesR| + DataSize(r.biasIndicesR))
    + (if r.unknownFields != [] then TokensSize(r.unknownFields) else 0)
  }

  lemma {:induction false} RepeatedTokensSize(field: nat, vs: seq<uint32>)
    requires 1 <= field <= 15
    ensures TokensSize(RepeatedTokens(field, vs)) == |vs| + DataSize(vs)
    decreases |vs|
  {
    if vs != [] {
      var init := vs[..|vs| - 1];
      var t := Token(field, Varint(vs[|vs| - 1] as nat));
      RepeatedTokensSize(field, init);
      TokensSizeAppend(RepeatedTokens(field, init), [t]);
      TokensSizeSingle(t);
    }
  }

  lemma TokensSizeSingle(t: Token)
    ensures TokensSize([t]) == TokenSize(t)
  {
    assert [t][..0] == [];
  }

  lemma ScalarTokensSize(r: Record)
    ensures TokensSize(ScalarTokens(r)) == ScalarsSize(r)
  {
    TokensSizeAppend(NameTokens(r), IdTokens(r));
    TokensSizeAppend(NameTokens(r) + IdTokens(r), LengthTokens(r));
    if r.hasName { TokensSizeSingle(Token(1, Delimited(r.name))); }
    if r.hasId { TokensSizeSingle(Token(2, Varint(r.id as nat))); }
    if r.hasLength { TokensSizeSingle(Token(3, Varint(r.length as nat))); }
  }

  /** ByteSize() is exactly the encoded size of what SerializeWithCachedSizes writes. */
  lemma ByteSizeIsSerializedSize(r: Record)
    ensures ByteSizeOf(r) == TokensSize(Serialized(r))
  {
    var s := ScalarTokens(r);
    var l := RepeatedTokens(4, r.biasIndicesL);
    var rr := RepeatedTokens(5, r.biasIndicesR);
    TokensSizeAppend(s, l);
    TokensSizeAppend(s + l, rr);
    TokensSizeAppend(s + l + rr, r.unknownFields);
    ScalarTokensSize(r);
    RepeatedTokensSize(4, r.biasIndicesL);
    RepeatedTokensSize(5, r.biasIndicesR);
  }

  // ---------------------------------------------------------------------------
  // Parsing a token stream (MergePartialFromCodedStream, at the token level)

  function Truncate32(v: nat): uint32 {
    (v % 0x1_0000_0000) as uint32
  }

  /** Tokens that the field switch recognises as one of the five fields. */
  predicate IsKnownShape(t: Token) {
    || (t.fieldNumber == 1 && t.payload.Delimited?)
    || (t.fieldNumber in {2, 3, 4, 5} && t.payload.Varint?)
    || (t.fieldNumber in {4, 5} && t.payload.Delimited?)
  }

  /** The token whose tag is 0 (field 0, wire type varint): ReadTag returns 0
      for it, which ends the read loop with success. */
  predicate IsEndTag(t: Token) {
    t.fieldNumber == 0 && t.payload.Varint?
  }

  /** Reads one token into r. A wrong wire type or an unknown field number is
      kept as an unknown field; a packed repeated field is decoded by `unpack`,
      whose failure fails the parse. */
  function MergeToken(r: Record, t: Token, unpack: Bytes -> Option<seq<uint32>>): (res: Option<Record>)
    ensures res.None? <==> t.fieldNumber in {4, 5} && t.payload.Delimited? && unpack(t.payload.bytes).None?
    ensures res.Some? ==> res.value.unknownFields == r.unknownFields + (if IsKnownShape(t) then [] else [t])
    ensures res.Some? ==> r.biasIndicesL <= res.value.biasIndicesL && r.biasIndicesR <= res.value.biasIndicesR
  {
    if !IsKnownShape(t) then Some(r.(unknownFields := r.unknownFields + [t]))
    else if t.fieldNumber == 1 then Some(SetName(r, t.payload.bytes))
    else if t.fieldNumber == 2 then Some(SetId(r, Truncate32(t.payload.value)))
    else if t.fieldNumber == 3 then Some(SetLength(r, Truncate32(t.payload.value)))
    else if t.payload.Varint? then Some(AppendBias(r, t.fieldNumber, [Truncate32(t.payload.value)]))
    else match unpack(t.payload.bytes)
      case None => None
      case Some(vs) => Some(AppendBias(r, t.fieldNumber, vs))
  }

  /** The read loop: tokens are merged in order until the input ends or the
      end tag is read, and the first failing token fails the whole parse. */
  function MergeTokens(r: Record, ts: seq<Token>, unpack: Bytes -> Option<seq<uint32>>): (res: Option<Record>)
    ensures (forall t :: t in ts ==> !(t.fieldNumber in {4, 5} && t.payload.Delimited?)) ==> res.Some?
    ensures res.Some? ==> r.biasIndicesL <= res.value.biasIndicesL && r.biasIndicesR <= res.value.biasIndicesR
    ensures res.Some? ==> r.unknownFields <= res.value.unknownFields
    decreases |ts|
  {
    if ts == [] then Some(r)
    else if IsEndTag(ts[0]) then Some(r)
    else match MergeToken(r, ts[0], unpack)
      case None => None
      case Some(r') => MergeTokens(r', ts[1..], unpack)
  }

  function Continue(o: Option<Record>, ts: seq<Token>, unpack: Bytes -> Option<seq<uint32>>): Option<Record> {
    match o
    case None => None
    case Some(r) => MergeTokens(r, ts, unpack)
  }

  /** Parsing a concatenation is parsing the first part, then the second from
      its result, provided the first part holds no end tag. */
  lemma {:induction false} MergeTokensAppend(r: Record, a: seq<Token>, b: seq<Token>, unpack: Bytes -> Option<seq<uint32>>)
    requires forall t :: t in a ==> !IsEndTag(t)
    ensures MergeTokens(r, a + b, unpack) == Continue(MergeTokens(r, a, unpack), b, unpack)
    decreases |a|
  {
    if a == [] {
      assert a + b == b;
    } else {
      assert (a + b)[0] == a[0];
      assert (a + b)[1..] == a[1..] + b;
      assert a[0] in a;
      assert forall t :: t in a[1..] ==> t in a;
      match MergeToken(r, a[0], unpack)
      case None =>
      case Some(r') => MergeTokensAppend(r', a[1..], b, unpack);
    }
  }

  lemma MergeTokensSingle(r: Record, t: Token, unpack: Bytes -> Option<seq<uint32>>)
    requires !IsEndTag(t)
    ensures MergeTokens(r, [t], unpack) == MergeToken(r, t, unpack)
  {
    assert [t][1..] == [];
  }

  /** Every token of a repeated field carries that field's number. */
  lemma {:induction false} RepeatedTokensField(field: nat, vs: seq<uint32>)
    ensures forall t :: t in RepeatedTokens(field, vs) ==> t.fieldNumber == field
    decreases |vs|
  {
    if vs != [] {
      RepeatedTokensField(field, vs[..|vs| - 1]);
    }
  }

  /** The end tag stops the parse: it and every token after it are ignored. */
  lemma ParseStopsAtEndTag(r: Record, v: nat, rest: seq<Token>, unpack: Bytes -> Option<seq<uint32>>)
    ensures MergeTokens(r, [Token(0, Varint(v))] + rest, unpack) == Some(r)
  {
  }

  /** So a token stream with the end tag parses like the part before it. */
  lemma ParseEndsAtEndTag(r: Record, a: seq<Token>, v: nat, rest: seq<Token>, unpack: Bytes -> Option<seq<uint32>>)
    requires forall t :: t in a ==> !IsEndTag(t)
    ensures MergeTokens(r, a + [Token(0, Varint(v))] + rest, unpack) == MergeTokens(r, a, unpack)
  {
    assert a + [Token(0, Varint(v))] + rest == a + ([Token(0, Varint(v))] + rest);
    MergeTokensAppend(r, a, [Token(0, Varint(v))] + rest, unpack);
    match MergeTokens(r, a, unpack)
    case None =>
    case Some(r') => ParseStopsAtEndTag(r', v, rest, unpack);
  }

  lemma {:induction false} ParseRepeated(r: Record, field: nat, vs: seq<uint32>, unpack: Bytes -> Option<seq<uint32>>)
    requires field == 4 || field == 5
    ensures MergeTokens(r, RepeatedTokens(field, vs), unpack) == Some(AppendBias(r, field, vs))
    decreases |vs|
  {
    if vs == [] {
      assert AppendBias(r, field, vs) == r by {
        assert r.biasIndicesL + [] == r.biasIndicesL;
        assert r.biasIndicesR + [] == r.biasIndicesR;
      }
    } else {
      var init := vs[..|vs| - 1];
      var v := vs[|vs| - 1];
      var t := Token(field, Varint(v as nat));
      RepeatedTokensField(field, init);
      MergeTokensAppend(r, RepeatedTokens(field, init), [t], unpack);
      ParseRepeated(r, field, init, unpack);
      MergeTokensSingle(AppendBias(r, field, init), t, unpack);
      ParseRepeatedLast(r, field, vs, unpack);
    }
  }

  /** Reading the token of the last element appends that element. */
  lemma ParseRepeatedLast(r: Record, field: nat, vs: seq<uint32>, unpack: Bytes -> Option<seq<uint32>>)
    requires (field == 4 || field == 5) && vs != []
    ensures var init, v := vs[..|vs| - 1], vs[|vs| - 1];
      MergeToken(AppendBias(r, field, init), Token(field, Varint(v as nat)), unpack)
      == Some(AppendBias(r, field, vs))
  {
    var init, v := vs[..|vs| - 1], vs[|vs| - 1];
    assert Truncate32(v as nat) == v;
    assert init + [v] == vs;
    if field == 4 {
      assert r.biasIndicesL + init + [v] == r.biasIndicesL + vs;
    } else {
      assert r.biasIndicesR + init + [v] == r.biasIndicesR + vs;
    }
  }

  lemma {:induction false} ParseUnknown(r: Record, u: seq<Token>, unpack: Bytes -> Option<seq<uint32>>)
    requires forall t :: t in u ==> !IsKnownShape(t) && !IsEndTag(t)
    ensures MergeTokens(r, u, unpack) == Some(r.(unknownFields := r.unknownFields + u))
    decreases |u|
  {
    if u == [] {
      assert r.unknownFields + u == r.unknownFields;
    } else {
      var r' := r.(unknownFields := r.unknownFields + [u[0]]);
      assert u[0] in u;
      assert forall t :: t in u[1..] ==> t in u;
      ParseUnknown(r', u[1..], unpack);
      assert r.unknownFields + [u[0]] + u[1..] == r.unknownFields + u;
    }
  }

  lemma ParseScalars(r: Record, from: Record, unpack: Bytes -> Option<seq<uint32>>)
    ensures MergeTokens(r, ScalarTokens(from), unpack) == Some(MergeScalars(r, from))
  {
    var n := if from.hasName then [Token(1, Delimited(from.name))] else [];
    var i := if from.hasId then [Token(2, Varint(from.id as nat))] else [];
    var g := if from.hasLength then [Token(3, Varint(from.length as nat))] else [];
    assert ScalarTokens(from) == n + i + g;
    MergeTokensAppend(r, n + i, g, unpack);
    MergeTokensAppend(r, n, i, unpack);
    var r1 := if from.hasName then SetName(r, from.name) else r;
    var r2 := if from.hasId then SetId(r1, from.id) else r1;
    var r3 := if from.hasLength then SetLength(r2, from.length) else r2;
    if from.hasName { MergeTokensSingle(r, n[0], unpack); }
    if from.hasId { MergeTokensSingle(r1, i[0], unpack); assert Truncate32(from.id as nat) == from.id; }
    if from.hasLength { MergeTokensSingle(r2, g[0], unpack); assert Truncate32(from.length as nat) == from.length; }
    assert MergeTokens(r, n, unpack) == Some(r1);
    assert MergeTokens(r1, i, unpack) == Some(r2);
    assert MergeTokens(r2, g, unpack) == Some(r3);
  }

  /** Parsing the serialisation of `from` into `into` is MergeFrom: the
      protocol-buffer law that concatenated messages merge. */
  lemma ParseIsMerge(into: Record, from: Record, unpack: Bytes -> Option<seq<uint32>>)
    requires forall t :: t in from.unknownFields ==> !IsKnownShape(t) && !IsEndTag(t)
    ensures MergeTokens(into, Serialized(from), unpack) == Some(Merged(into, from))
  {
    var s := ScalarTokens(from);
    var l := RepeatedTokens(4, from.biasIndicesL);
    var rr := RepeatedTokens(5, from.biasIndicesR);
    var u := from.unknownFields;
    KnownTokensInRange(from);
    MergeTokensAppend(into, s + l + rr, u, unpack);
    MergeTokensAppend(into, s + l, rr, unpack);
    MergeTokensAppend(into, s, l, unpack);
    ParseScalars(into, from, unpack);
    var r1 := MergeScalars(into, from);
    ParseRepeated(r1, 4, from.biasIndicesL, unpack);
    var r2 := AppendBias(r1, 4, from.biasIndicesL);
    ParseRepeated(r2, 5, from.biasIndicesR, unpack);
    var r3 := AppendBias(r2, 5, from.biasIndicesR);
    ParseUnknown(r3, u, unpack);
  }

  /** A Canonical record merged into the empty record is itself. */
  lemma MergeIntoEmpty(from: Record)
    requires Canonical(from)
    ensures Merged(Empty(), from) == from
  {
  }

  /** Serialisation round-trips through the parser. */
  lemma RoundTrip(r: Record, unpack: Bytes -> Option<seq<uint32>>)
    requires Canonical(r)
    requires forall t :: t in r.unknownFields ==> !IsKnownShape(t) && !IsEndTag(t)
    ensures MergeTokens(Empty(), Serialized(r), unpack) == Some(r)
  {
    ParseIsMerge(Empty(), r, unpack);
    MergeIntoEmpty(r);
  }

  /** Construction and Clear() give the same record. */
  lemma ClearedIsEmpty(r: Record)
    requires Canonical(r)
    ensures Cleared(r) == Empty()
  {
  }

  /** Clear() followed by MergeFrom(from), which is CopyFrom, yields `from`. */
  lemma CopyYieldsSource(r: Record, from: Record)
    requires Canonical(r) && Canonical(from)
    ensures Merged(Cleared(r), from) == from
  {
    ClearedIsEmpty(r);
    MergeIntoEmpty(from);
  }

  lemma MergePreservesCanonical(into: Record, from: Record)
    requires Canonical(into) && Canonical(from)
    ensures Canonical(Merged(into, from))
  {
  }

  /** What MergeFrom does to each field: repeated fields and unknown fields
      are appended in order, a scalar present in `from` overwrites and becomes
      present, an absent one leaves the target's value and flag as they were. */
  lemma MergedFields(into: Record, from: Record)
    ensures var m := Merged(into, from);
      && m.biasIndicesL == into.biasIndicesL + from.biasIndicesL
      && m.biasIndicesR == into.biasIndicesR + from.biasIndicesR
      && m.unknownFields == into.unknownFields + from.unknownFields
      && m.name == (if from.hasName then from.name else into.name)
      && m.id == (if from.hasId then from.id else into.id)
      && m.length == (if from.hasLength then from.length else into.length)
      && m.hasName == (into.hasName || from.hasName)
      && m.hasId == (into.hasId || from.hasId)
      && m.hasLength == (into.hasLength || from.hasLength)
  {
  }

  /** Merging is associative, so merging messages one by one equals merging their merge. */
  lemma MergeAssociative(a: Record, b: Record, c: Record)
    ensures Merged(Merged(a, b), c) == Merged(a, Merged(b, c))
  {
    MergedFields(a, b);
    MergedFields(Merged(a, b), c);
    MergedFields(b, c);
    MergedFields(a, Merged(b, c));
    assert (a.biasIndicesL + b.biasIndicesL) + c.biasIndicesL == a.biasIndicesL + (b.biasIndicesL + c.biasIndicesL);
    assert (a.biasIndicesR + b.biasIndicesR) + c.biasIndicesR == a.biasIndicesR + (b.biasIndicesR + c.biasIndicesR);
    assert (a.unknownFields + b.unknownFields) + c.unknownFields == a.unknownFields + (b.unknownFields + c.unknownFields);
  }

  /** The loop that writes a repeated field: one token per element, in index order. */
  method WriteRepeated(out: seq<Token>, field: nat, vs: seq<uint32>) returns (out': seq<Token>)
    ensures out' == out + RepeatedTokens(field, vs)
  {
    out' := out;
    var i := 0;
    while i < |vs|
      invariant 0 <= i <= |vs|
      invariant out' == out + RepeatedTokens(field, vs[..i])
    {
      assert vs[..i + 1][..i] == vs[..i];
      out' := out' + [Token(field, Varint(vs[i] as nat))];
      i := i + 1;
    }
    assert vs[..i] == vs;
  }

  /** The data_size loop of ByteSize() for one repeated field. */
  method RepeatedDataSize(vs: seq<uint32>) returns (dataSize: nat)
    ensures dataSize == DataSize(vs)
  {
    dataSize := 0;
    var i := 0;
    while i < |vs|
      invariant 0 <= i <= |vs|
      invariant dataSize == DataSize(vs[..i])
    {
      assert vs[..i + 1][..i] == vs[..i];
      dataSize := dataSize + UInt32Size(vs[i]);
      i := i + 1;
    }
    assert vs[..i] == vs;
  }

  // ---------------------------------------------------------------------------
  // The message object

  class Target {
    var name: Bytes
    var id: uint32
    var length: uint32
    var biasIndicesL: seq<uint32>
    var biasIndicesR: seq<uint32>
    var hasName: bool
    var hasId: bool
    var hasLength: bool
    var unknownFields: seq<Token>
    var cachedSize: int

    ghost function Value(): Record
      reads this
    {
      Record(name, id, length, biasIndicesL, biasIndicesR, hasName, hasId, hasLength, unknownFields)
    }

    ghost predicate Valid()
      reads this
    {
      Canonical(Value())
    }

    /** Target() and SharedCtor(). */
    constructor ()
      ensures Valid()
      ensures Value() == Empty() && cachedSize == 0
    {
      cachedSize := 0;
      name := [];
      id := 0;
      length := 0;
      hasName, hasId, hasLength := false, false, false;
      biasIndicesL := [];
      biasIndicesR := [];
      unknownFields := [];
    }

    /** Target(const Target& from): SharedCtor() followed by MergeFrom(from). */
    constructor Copy(from: Target)
      requires from.Valid()
      ensures Valid()
      ensures Value() == from.Value() && cachedSize == 0
    {
      cachedSize := 0;
      name := [];
      id := 0;
      length := 0;
      hasName, hasId, hasLength := false, false, false;
      biasIndicesL := [];
      biasIndicesR := [];
      unknownFields := [];
      new;
      MergeIntoEmpty(from.Value());
      MergeFrom(from);
    }

    method Clear()
      requires Valid()
      modifies this
      ensures Valid()
      ensures Value() == Cleared(old(Value()))
      ensures Value() == Empty() && cachedSize == old(cachedSize)
    {
      if hasName || hasId || hasLength {
        if hasName {
          name := [];
        }
        id := 0;
        length := 0;
      }
      biasIndicesL := [];
      biasIndicesR := [];
      hasName, hasId, hasLength := false, false, false;
      unknownFields := [];
      ClearedIsEmpty(old(Value()));
    }

    method MergeFrom(from: Target)
      requires from != this
      requires Valid() && from.Valid()
      modifies this
      ensures Valid()
      ensures Value() == Merged(old(Value()), from.Value())
      ensures cachedSize == old(cachedSize)
    {
      biasIndicesL := biasIndicesL + from.biasIndicesL;
      biasIndicesR := biasIndicesR + from.biasIndicesR;
      MergeScalarsFrom(from);
      unknownFields := unknownFields + from.unknownFields;
      MergePreservesCanonical(old(Value()), from.Value());
    }

    /** The scalar block of MergeFrom(const Target&). */
    method MergeScalarsFrom(from: Target)
      requires from != this
      modifies this`name, this`id, this`length, this`hasName, this`hasId, this`hasLength
      ensures Value() == MergeScalars(old(Value()), from.Value())
    {
      if from.hasName || from.hasId || from.hasLength {
        if from.hasName {
          name, hasName := from.name, true;
        }
        if from.hasId {
          id, hasId := from.id, true;
        }
        if from.hasLength {
          length, hasLength := from.length, true;
        }
      }
    }

    /** CopyFrom(const Target&): nothing on itself, otherwise Clear() then MergeFrom(from). */
    method CopyFrom(from: Target)
      requires Valid() && from.Valid()
      modifies this
      ensures Valid()
      ensures Value() == old(from.Value()) && cachedSize == old(cachedSize)
    {
      if from == this {
        return;
      }
      Clear();
      MergeFrom(from);
      MergeIntoEmpty(from.Value());
    }

    /** IsInitialized(): the test of bits 1 and 2 of the presence word. */
    function IsInitialized(): (r: bool)
      reads this
      ensures r <==> hasId && hasLength
    {
      PresenceBits(Value());
      PresenceWord(hasName, hasId, hasLength) & 0x6 == 0x6
    }

    /** Swap(other): exchanges every field, the presence word and the cached size. */
    method Swap(other: Target)
      requires Valid() && other.Valid()
      modifies this, other
      ensures Valid() && other.Valid()
      ensures Value() == old(other.Value()) && other.Value() == old(Value())
      ensures cachedSize == old(other.cachedSize) && other.cachedSize == old(cachedSize)
    {
      if other != this {
        SwapScalars(other);
        SwapRepeated(other);
        cachedSize, other.cachedSize := other.cachedSize, cachedSize;
      }
    }

    /** The std::swap calls of Swap for name, id, length and the presence word. */
    method SwapScalars(other: Target)
      requires other != this
      modifies this`name, this`id, this`length, this`hasName, this`hasId, this`hasLength
      modifies other`name, other`id, other`length, other`hasName, other`hasId, other`hasLength
      ensures name == old(other.name) && other.name == old(name)
      ensures id == old(other.id) && other.id == old(id)
      ensures length == old(other.length) && other.length == old(length)
      ensures hasName == old(other.hasName) && other.hasName == old(hasName)
      ensures hasId == old(other.hasId) && other.hasId == old(hasId)
      ensures hasLength == old(other.hasLength) && other.hasLength == old(hasLength)
    {
      name, other.name := other.name, name;
      id, other.id := other.id, id;
      length, other.length := other.length, length;
      hasName, other.hasName := other.hasName, hasName;
      hasId, other.hasId := other.hasId, hasId;
      hasLength, other.hasLength := other.hasLength, hasLength;
    }

    /** The Swap calls of Swap for the two repeated fields and the unknown fields. */
    method SwapRepeated(other: Target)
      requires other != this
      modifies this`biasIndicesL, this`biasIndicesR, this`unknownFields
      modifies other`biasIndicesL, other`biasIndicesR, other`unknownFields
      ensures biasIndicesL == old(other.biasIndicesL) && other.biasIndicesL == old(biasIndicesL)
      ensures biasIndicesR == old(other.biasIndicesR) && other.biasIndicesR == old(biasIndicesR)
      ensures unknownFields == old(other.unknownFields) && other.unknownFields == old(unknownFields)
    {
      biasIndicesL, other.biasIndicesL := other.biasIndicesL, biasIndicesL;
      biasIndicesR, other.biasIndicesR := other.biasIndicesR, biasIndicesR;
      unknownFields, other.unknownFields := other.unknownFields, unknownFields;
    }

    /** SerializeWithCachedSizes, writing tokens instead of bytes. */
    method SerializeWithCachedSizes() returns (out: seq<Token>)
      ensures out == Serialized(Value())
    {
      ghost var r := Value();
      out := [];
      if hasName {
        out := out + [Token(1, Delimited(name))];
      }
      assert out == NameTokens(r);
      if hasId {
        out := out + [Token(2, Varint(id as nat))];
      }
      assert out == NameTokens(r) + IdTokens(r);
      if hasLength {
        out := out + [Token(3, Varint(length as nat))];
      }
      assert out == ScalarTokens(r);
      out := WriteRepeated(out, 4, biasIndicesL);
      out := WriteRepeated(out, 5, biasIndicesR);
      if unknownFields != [] {
        out := out + unknownFields;
      }
    }

    /** The scalar block of ByteSize(), guarded by the first presence byte. */
    method ScalarsByteSize() returns (total: nat)
      ensures total == ScalarsSize(Value())
    {
      total := 0;
      if hasName || hasId || hasLength {
        if hasName {
          total := total + 1 + StringSize(name);
        }
        if hasId {
          total := total + 1 + UInt32Size(id);
        }
        if hasLength {
          total := total + 1 + UInt32Size(length);
        }
      }
    }

    /** ByteSize(): computes the encoded size and stores it as the cached size. */
    method ByteSize() returns (size: int)
      modifies this`cachedSize
      ensures size == ByteSizeOf(Value()) && cachedSize == size
      ensures size == TokensSize(Serialized(Value()))
    {
      var total := ScalarsByteSize();
      var dataSize := RepeatedDataSize(biasIndicesL);
      total := total + 1 * |biasIndicesL| + dataSize;
      dataSize := RepeatedDataSize(biasIndicesR);
      total := total + 1 * |biasIndicesR| + dataSize;
      if unknownFields != [] {
        total := total + TokensSize(unknownFields);
      }
      cachedSize := total;
      size := total;
      ByteSizeIsSerializedSize(Value());
    }
  }

  /** Swapping twice restores both messages. */
  method SwapTwice(a: Target, b: Target)
    requires a.Valid() && b.Valid()
    modifies a, b
    ensures a.Value() == old(a.Value()) && b.Value() == old(b.Value())
  {
    a.Swap(b);
    a.Swap(b);
  }
}
