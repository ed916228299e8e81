/**
 * The record types that the control ROM decoder produces (`Sample`, `Partial`,
 * `InstPartial`, `Instrument`, `DrumSet`, `Variation`), their fixed sizes in
 * the ROM, and the decoding of the two layouts whose field sizes add up to
 * the record size exactly: the drum set and the variation row.
 */
module Records {
  import opened Endian
  import opened Containers

  const SampleSize: nat := 16
  const PartialSize: nat := 48
  const InstPartialSize: nat := 92
  /** Bytes in front of an instrument's two partial slots (unknown purpose). */
  const InstrumentHeaderSize: nat := 20
  const InstrumentSize: nat := 204
  const DrumSetSize: nat := 1164
  const VariationRowSize: nat := 256

  const DrumKeys: nat := 128
  const DrumNameSize: nat := 12
  const PartialBreaks: nat := 16
  const InstPartialSlots: nat := 2
  const InstPartialParams: nat := 40
  const VariationEntries: nat := 128
  const VariationRows: nat := 128

  // ---------------------------------------------------------------- names

  /** A fixed-width name field read as text, with its trailing NUL fill removed. */
  function DecodeName(field: seq<uint8>): (name: string)
    ensures |name| <= |field|
    ensures forall i :: 0 <= i < |name| ==> name[i] as int == field[i]
    ensures forall i :: |name| <= i < |field| ==> field[i] == 0
    ensures name == [] || name[|name| - 1] != '\0'
  {
    if field == [] then []
    else if field[|field| - 1] == 0 then DecodeName(field[..|field| - 1])
    else seq(|field|, i requires 0 <= i < |field| => field[i] as char)
  }

  /** A name that fits a `width`-byte field and has no trailing NUL. */
  predicate NameFits(name: string, width: nat)
  {
    |name| <= width &&
    (forall i :: 0 <= i < |name| ==> name[i] as int < 0x100) &&
    (name == [] || name[|name| - 1] != '\0')
  }

  /** The `width`-byte field holding `name`, padded with NUL bytes. */
  function EncodeName(name: string, width: nat): (field: seq<uint8>)
    requires NameFits(name, width)
    ensures |field| == width
  {
    seq(width, i requires 0 <= i < width => if i < |name| then name[i] as int else 0)
  }

  lemma NameRoundTrip(name: string, width: nat)
    requires NameFits(name, width)
    ensures DecodeName(EncodeName(name, width)) == name
  {
    var field := EncodeName(name, width);
    var d := DecodeName(field);
    assert |d| >= |name| by {
      if name != [] {
        assert field[|name| - 1] == name[|name| - 1] as int != 0;
      }
    }
    assert |d| <= |name| by {
      if d != [] {
        assert field[|d| - 1] == d[|d| - 1] as int != 0;
      }
    }
    assert forall i :: 0 <= i < |d| ==> d[i] as int == name[i] as int;
  }

  /** Reading a name field and padding the name back into the field gives the field. */
  lemma NameFieldRoundTrip(field: seq<uint8>)
    ensures NameFits(DecodeName(field), |field|)
    ensures EncodeName(DecodeName(field), |field|) == field
  {
    var name := DecodeName(field);
    assert forall i :: 0 <= i < |name| ==> name[i] as int < 0x100 by {
      forall i | 0 <= i < |name|
        ensures name[i] as int < 0x100
      {
        assert name[i] as int == field[i];
      }
    }
  }

  // ---------------------------------------------------------------- samples

  const LoopForward: uint8 := 0
  const LoopForwardBackward: uint8 := 1
  const LoopNone: uint8 := 2

  /** One wavetable sample descriptor and its decoded waveform (24-bit mono). */
  datatype Sample = Sample(
    volume: uint8,
    address: uint32,
    attackEnd: uint16,
    sampleLen: uint16,
    loopLen: uint16,
    loopMode: uint8,
    rootKey: uint8,
    pitch: uint16,
    fineVolume: uint16,
    sampleSet: seq<int32>)

  /** How a sample repeats once its end is reached. */
  datatype LoopMode = Forward | ForwardBackward | NoLoop

  /** The meaning of a sample's `loopMode` byte; no other code is defined. */
  function LoopModeOf(code: uint8): (mode: Option<LoopMode>)
    ensures mode.Some? <==> code == LoopForward || code == LoopForwardBackward || code == LoopNone
    ensures mode == Some(NoLoop) <==> code == LoopNone
    ensures mode.Some? ==> LoopModeCode(mode.value) == code
  {
    if code == LoopForward then Some(Forward)
    else if code == LoopForwardBackward then Some(ForwardBackward)
    else if code == LoopNone then Some(NoLoop)
    else None
  }

  function LoopModeCode(mode: LoopMode): (code: uint8)
    ensures code <= LoopNone
  {
    match mode
    case Forward => LoopForward
    case ForwardBackward => LoopForwardBackward
    case NoLoop => LoopNone
  }

  lemma LoopModeRoundTrip(mode: LoopMode)
    ensures LoopModeOf(LoopModeCode(mode)) == Some(mode)
  {
  }

  /** The loop point `sampleLen - loopLen - 1`, in C's signed `int` arithmetic. */
  function LoopPoint(s: Sample): (p: int)
    ensures 0 <= p < s.sampleLen <==> s.loopLen < s.sampleLen
    ensures p + s.loopLen + 1 == s.sampleLen
  {
    s.sampleLen - s.loopLen - 1
  }

  /** Bits 20 and above of a sample address: the wave bank (`address >> 20`). */
  function WaveBank(address: uint32): (bank: nat)
    ensures bank < 0x1000
  {
    address / 0x10_0000
  }

  /** The low 20 bits of a sample address: the in-bank address (`address & 0xFFFFF`). */
  function BankOffset(address: uint32): (offset: nat)
    ensures offset < 0x10_0000
  {
    address % 0x10_0000
  }

  /** `bank << 20 | offset` for an offset that fits in 20 bits. */
  function JoinAddress(bank: nat, offset: nat): (address: nat)
    requires offset < 0x10_0000
    ensures address / 0x10_0000 == bank && address % 0x10_0000 == offset
  {
    bank * 0x10_0000 + offset
  }

  lemma SplitJoin(address: uint32)
    ensures JoinAddress(WaveBank(address), BankOffset(address)) == address
  {
  }

  lemma JoinSplit(bank: nat, offset: nat)
    requires bank < 0x1000 && offset < 0x10_0000
    ensures JoinAddress(bank, offset) < 0x1_0000_0000
    ensures WaveBank(JoinAddress(bank, offset)) == bank
    ensures BankOffset(JoinAddress(bank, offset)) == offset
  {
  }

  // ---------------------------------------------------------------- partials

  /** Up to 16 key breakpoints, each with a sample-table index; index 0 is the default. */
  datatype Partial = Partial(name: string, breaks: seq<uint8>, samples: seq<uint16>)

  predicate ValidPartial(p: Partial)
  {
    |p.breaks| == PartialBreaks && |p.samples| == PartialBreaks
  }

  // ---------------------------------------------------------------- instruments

  const UnusedPartial: uint16 := 0xFFFF

  /** One partial slot of an instrument: a partial-table index and 40 signed parameters. */
  datatype InstPartial = InstPartial(partialIndex: uint16, params: seq<int8>)

  /** A slot as the record lays it out: the index and exactly 40 parameters. */
  predicate ValidInstPartial(slot: InstPartial)
  {
    |slot.params| == InstPartialParams
  }

  predicate IsUnused(slot: InstPartial)
  {
    slot.partialIndex == UnusedPartial
  }

  datatype Instrument = Instrument(name: string, partials: seq<InstPartial>)

  /** An instrument as the record lays it out: two well-formed partial slots. */
  predicate ValidInstrument(inst: Instrument)
  {
    |inst.partials| == InstPartialSlots &&
    forall j :: 0 <= j < |inst.partials| ==> ValidInstPartial(inst.partials[j])
  }

  /** The 92-byte block of slot `j` inside a 204-byte instrument record. */
  function SlotBytes(rec: seq<uint8>, j: nat): (block: seq<uint8>)
    requires |rec| == InstrumentSize && j < InstPartialSlots
    ensures |block| == InstPartialSize
  {
    rec[InstrumentHeaderSize + j * InstPartialSize..InstrumentHeaderSize + (j + 1) * InstPartialSize]
  }

  /** The header and the two slot blocks make up the whole instrument record. */
  lemma InstrumentRecordLayout(rec: seq<uint8>)
    requires |rec| == InstrumentSize
    ensures rec == rec[..InstrumentHeaderSize] + SlotBytes(rec, 0) + SlotBytes(rec, 1)
  {
    assert rec == rec[..InstrumentHeaderSize] + rec[InstrumentHeaderSize..112] + rec[112..];
  }

  /**
   * An instrument record: the name comes from the record and each of the two
   * slots from its own 92-byte block. `nameOf` and `slotOf` stand for the
   * field layouts inside the record, which are not part of this model.
   */
  function DecodeInstrument(nameOf: seq<uint8> -> string, slotOf: seq<uint8> -> InstPartial,
                            rec: seq<uint8>): (inst: Instrument)
    requires |rec| == InstrumentSize
    ensures |inst.partials| == InstPartialSlots
    ensures forall j :: 0 <= j < InstPartialSlots ==> inst.partials[j] == slotOf(SlotBytes(rec, j))
    ensures (forall block :: |block| == InstPartialSize ==> ValidInstPartial(slotOf(block))) ==>
              ValidInstrument(inst)
  {
    Instrument(nameOf(rec), [slotOf(SlotBytes(rec, 0)), slotOf(SlotBytes(rec, 1))])
  }

  /** The slots of an instrument that refer to a partial. */
  function UsedSlots(inst: Instrument): (slots: seq<nat>)
    ensures forall j :: j in slots <==> 0 <= j < |inst.partials| && !IsUnused(inst.partials[j])
    ensures forall i, k :: 0 <= i < k < |slots| ==> slots[i] < slots[k]
  {
    UsedSlotsFrom(inst.partials, 0)
  }

  /** Slot `j` of a decoded instrument is in use exactly when its block's partial index is not 0xFFFF. */
  lemma DecodedUsedSlots(nameOf: seq<uint8> -> string, slotOf: seq<uint8> -> InstPartial,
                         rec: seq<uint8>, j: nat)
    requires |rec| == InstrumentSize
    ensures j in UsedSlots(DecodeInstrument(nameOf, slotOf, rec)) <==>
              j < InstPartialSlots && slotOf(SlotBytes(rec, j)).partialIndex != UnusedPartial
  {
  }

  function UsedSlotsFrom(slots: seq<InstPartial>, from: nat): (used: seq<nat>)
    requires from <= |slots|
    ensures forall j :: j in used <==> from <= j < |slots| && !IsUnused(slots[j])
    ensures forall i, k :: 0 <= i < k < |used| ==> used[i] < used[k]
    decreases |slots| - from
  {
    if from == |slots| then []
    else if IsUnused(slots[from]) then UsedSlotsFrom(slots, from + 1)
    else
      var rest := UsedSlotsFrom(slots, from + 1);
      assert forall k :: 0 <= k < |rest| ==> rest[k] in rest;
      [from] + rest
  }

  // ---------------------------------------------------------------- 16-bit arrays

  /** The two bytes of the 16-bit field at byte `at`. */
  function Field16(bytes: seq<uint8>, at: nat): (field: seq<uint8>)
    requires at + 2 <= |bytes|
    ensures |field| == 2 && field[0] == bytes[at] && field[1] == bytes[at + 1]
  {
    bytes[at..at + 2]
  }

  /** The two bytes of entry `k` of a run of 16-bit fields starting at byte 0. */
  function Entry16(bytes: seq<uint8>, k: nat): (field: seq<uint8>)
    requires 2 * k + 2 <= |bytes|
    ensures field == Field16(bytes, 2 * k)
  {
    bytes[2 * k..2 * k + 2]
  }

  /** `n` consecutive 16-bit fields starting at byte `at`. */
  function DecodeUint16s(host: ByteOrder, bytes: seq<uint8>, at: nat, n: nat): (vs: seq<uint16>)
    requires at + 2 * n <= |bytes|
    ensures |vs| == n
    ensures forall k :: 0 <= k < n ==> vs[k] == Value(RomByteOrder, Field16(bytes, at + 2 * k))
  {
    seq(n, k requires 0 <= k < n => NativeEndianUint16(host, bytes, at + 2 * k))
  }

  /** The bytes of a sequence of 16-bit values in ROM order. */
  function EncodeUint16s(vs: seq<uint16>): (bytes: seq<uint8>)
    ensures |bytes| == 2 * |vs|
    ensures forall k :: 0 <= k < |vs| ==> Entry16(bytes, k) == Bytes(RomByteOrder, 2, vs[k])
  {
    if vs == [] then []
    else
      var rest := EncodeUint16s(vs[1..]);
      var bytes := Bytes(RomByteOrder, 2, vs[0]) + rest;
      assert forall k :: 1 <= k < |vs| ==> Entry16(bytes, k) == Entry16(rest, k - 1);
      bytes
  }

  /** Cutting a run after entry `k` leaves that entry's bytes alone. */
  lemma PrefixEntry(bytes: seq<uint8>, n: nat, k: nat)
    requires 2 * k + 2 <= n <= |bytes|
    ensures Entry16(bytes[..n], k) == Entry16(bytes, k)
  {
  }

  /** The two bytes of entry `k` of an encoded run are that entry's stored bytes. */
  lemma EncodedEntry(vs: seq<uint16>, bytes: seq<uint8>, k: nat)
    requires 2 * |vs| <= |bytes| && k < |vs|
    requires bytes[..2 * |vs|] == EncodeUint16s(vs)
    ensures Entry16(bytes, k) == Bytes(RomByteOrder, 2, vs[k])
  {
    PrefixEntry(bytes, 2 * |vs|, k);
  }

  lemma Uint16sRoundTrip(host: ByteOrder, vs: seq<uint16>, bytes: seq<uint8>)
    requires 2 * |vs| <= |bytes|
    requires bytes[..2 * |vs|] == EncodeUint16s(vs)
    ensures DecodeUint16s(host, bytes, 0, |vs|) == vs
  {
    var decoded := DecodeUint16s(host, bytes, 0, |vs|);
    forall k | 0 <= k < |vs|
      ensures decoded[k] == vs[k]
    {
      EncodedEntry(vs, bytes, k);
      ValueOfBytes(RomByteOrder, 2, vs[k]);
    }
  }

  /** Reading a run of 16-bit fields and encoding the values again gives the run's bytes. */
  lemma DecodedRunEncodes(host: ByteOrder, bytes: seq<uint8>, n: nat)
    requires 2 * n <= |bytes|
    ensures EncodeUint16s(DecodeUint16s(host, bytes, 0, n)) == bytes[..2 * n]
  {
    var vs := DecodeUint16s(host, bytes, 0, n);
    var encoded := EncodeUint16s(vs);
    forall k | 0 <= k < n
      ensures encoded[2 * k] == bytes[2 * k] && encoded[2 * k + 1] == bytes[2 * k + 1]
    {
      BytesOfValue(RomByteOrder, Field16(bytes, 2 * k));
      assert Entry16(encoded, k) == Field16(bytes, 2 * k);
    }
    forall i | 0 <= i < 2 * n
      ensures encoded[i] == bytes[i]
    {
      var k := i / 2;
      assert i == 2 * k || i == 2 * k + 1;
    }
  }

  // ---------------------------------------------------------------- drum sets

  /** One percussion kit: eight parallel 128-entry per-key arrays and a name. */
  datatype DrumSet = DrumSet(
    preset: seq<uint16>,
    volume: seq<uint8>,
    key: seq<uint8>,
    assignGroup: seq<uint8>,
    panpot: seq<uint8>,
    reverb: seq<uint8>,
    chorus: seq<uint8>,
    flags: seq<uint8>,
    name: string)

  predicate ValidDrumSet(d: DrumSet)
  {
    |d.preset| == DrumKeys && |d.volume| == DrumKeys && |d.key| == DrumKeys &&
    |d.assignGroup| == DrumKeys && |d.panpot| == DrumKeys && |d.reverb| == DrumKeys &&
    |d.chorus| == DrumKeys && |d.flags| == DrumKeys && NameFits(d.name, DrumNameSize)
  }

  /** Start of the `j`-th 8-bit per-key array (0 = volume … 6 = flags) in a drum-set record. */
  function ByteArrayAt(j: nat): nat
  {
    2 * DrumKeys + j * DrumKeys
  }

  /** Start of the name in a drum-set record, after the eight per-key arrays. */
  const DrumNameAt: nat := 2 * DrumKeys + 7 * DrumKeys

  function KeyArray(rec: seq<uint8>, j: nat): (a: seq<uint8>)
    requires |rec| == DrumSetSize && j < 7
    ensures |a| == DrumKeys
  {
    rec[ByteArrayAt(j)..ByteArrayAt(j + 1)]
  }

  /** A 1164-byte drum-set record, its fields in declaration order. */
  function DecodeDrumSet(host: ByteOrder, rec: seq<uint8>): (d: DrumSet)
    requires |rec| == DrumSetSize
    ensures ValidDrumSet(d)
  {
    DrumSet(DecodeUint16s(host, rec, 0, DrumKeys),
            KeyArray(rec, 0), KeyArray(rec, 1), KeyArray(rec, 2), KeyArray(rec, 3),
            KeyArray(rec, 4), KeyArray(rec, 5), KeyArray(rec, 6),
            DecodeName(rec[DrumNameAt..]))
  }

  function EncodeDrumSet(d: DrumSet): (rec: seq<uint8>)
    requires ValidDrumSet(d)
    ensures |rec| == DrumSetSize
  {
    EncodeUint16s(d.preset) + d.volume + d.key + d.assignGroup + d.panpot +
    d.reverb + d.chorus + d.flags + EncodeName(d.name, DrumNameSize)
  }

  /** The `j`-th 8-bit per-key array of a drum set, in record order. */
  function ByteArray(d: DrumSet, j: nat): seq<uint8>
    requires j < 7
  {
    if j == 0 then d.volume
    else if j == 1 then d.key
    else if j == 2 then d.assignGroup
    else if j == 3 then d.panpot
    else if j == 4 then d.reverb
    else if j == 5 then d.chorus
    else d.flags
  }

  /** Each 8-bit per-key array is stored at its place in the encoded record. */
  lemma EncodedKeyArray(d: DrumSet, j: nat)
    requires ValidDrumSet(d) && j < 7
    ensures KeyArray(EncodeDrumSet(d), j) == ByteArray(d, j)
  {
    var rec := EncodeDrumSet(d);
    forall i | 0 <= i < DrumKeys
      ensures KeyArray(rec, j)[i] == ByteArray(d, j)[i]
    {
      assert KeyArray(rec, j)[i] == rec[ByteArrayAt(j) + i];
    }
  }

  lemma DrumSetRoundTrip(host: ByteOrder, d: DrumSet)
    requires ValidDrumSet(d)
    ensures DecodeDrumSet(host, EncodeDrumSet(d)) == d
  {
    var rec := EncodeDrumSet(d);
    assert rec[..2 * DrumKeys] == EncodeUint16s(d.preset);
    Uint16sRoundTrip(host, d.preset, rec);
    EncodedKeyArray(d, 0);
    EncodedKeyArray(d, 1);
    EncodedKeyArray(d, 2);
    EncodedKeyArray(d, 3);
    EncodedKeyArray(d, 4);
    EncodedKeyArray(d, 5);
    EncodedKeyArray(d, 6);
    assert rec[DrumNameAt..] == EncodeName(d.name, DrumNameSize);
    NameRoundTrip(d.name, DrumNameSize);
  }

  /** The preset run, the seven per-key arrays and the name make up the whole drum-set record. */
  lemma DrumSetRecordLayout(rec: seq<uint8>)
    requires |rec| == DrumSetSize
    ensures rec == rec[..2 * DrumKeys] + KeyArray(rec, 0) + KeyArray(rec, 1) + KeyArray(rec, 2) +
                   KeyArray(rec, 3) + KeyArray(rec, 4) + KeyArray(rec, 5) + KeyArray(rec, 6) +
                   rec[DrumNameAt..]
  {
  }

  /** Decoding a drum-set record and encoding it again gives the record: no byte is ignored. */
  lemma DrumSetRecordRoundTrip(host: ByteOrder, rec: seq<uint8>)
    requires |rec| == DrumSetSize
    ensures EncodeDrumSet(DecodeDrumSet(host, rec)) == rec
  {
    DecodedRunEncodes(host, rec, DrumKeys);
    NameFieldRoundTrip(rec[DrumNameAt..]);
    DrumSetRecordLayout(rec);
  }

  const NoteOnFlag: uint8 := 0x10
  const NoteOffFlag: uint8 := 0x01

  /** The key's flags carry the note-on bit (0x10). */
  predicate ReceivesNoteOn(flags: uint8)
  {
    (flags / 0x10) % 2 == 1
  }

  /** The key's flags carry the note-off bit (0x01). */
  predicate ReceivesNoteOff(flags: uint8)
  {
    flags % 2 == 1
  }

  /**
   * Key `k` of a decoded drum set takes its flags from byte `k` of the record's
   * flag array; a key flagged 0x10 receives note-on and not note-off, a key
   * flagged 0x01 note-off and not note-on.
   */
  lemma FlagMeaning(host: ByteOrder, rec: seq<uint8>, k: nat)
    requires |rec| == DrumSetSize && k < DrumKeys
    ensures DecodeDrumSet(host, rec).flags[k] == rec[ByteArrayAt(6) + k]
    ensures rec[ByteArrayAt(6) + k] == NoteOnFlag ==>
              ReceivesNoteOn(DecodeDrumSet(host, rec).flags[k]) &&
              !ReceivesNoteOff(DecodeDrumSet(host, rec).flags[k])
    ensures rec[ByteArrayAt(6) + k] == NoteOffFlag ==>
              ReceivesNoteOff(DecodeDrumSet(host, rec).flags[k]) &&
              !ReceivesNoteOn(DecodeDrumSet(host, rec).flags[k])
  {
  }

  // ---------------------------------------------------------------- variations

  /** One row of the 128 x 128 variation table. */
  datatype Variation = Variation(variation: seq<uint16>)

  function DecodeVariation(host: ByteOrder, row: seq<uint8>): (v: Variation)
    requires |row| == VariationRowSize
    ensures |v.variation| == VariationEntries
  {
    Variation(DecodeUint16s(host, row, 0, VariationEntries))
  }

  function EncodeVariation(v: Variation): (row: seq<uint8>)
    requires |v.variation| == VariationEntries
    ensures |row| == VariationRowSize
  {
    EncodeUint16s(v.variation)
  }

  lemma VariationRoundTrip(host: ByteOrder, v: Variation)
    requires |v.variation| == VariationEntries
    ensures DecodeVariation(host, EncodeVariation(v)) == v
  {
    var row := EncodeVariation(v);
    assert row[..VariationRowSize] == row;
    Uint16sRoundTrip(host, v.variation, row);
  }

  /** Decoding a variation row and encoding it again gives the row. */
  lemma VariationRowRoundTrip(host: ByteOrder, row: seq<uint8>)
    requires |row| == VariationRowSize
    ensures EncodeVariation(DecodeVariation(host, row)) == row
  {
    DecodedRunEncodes(host, row, VariationEntries);
    assert row[..VariationRowSize] == row;
  }
}
