/**
 * The control ROM decoder: the per-model bank tables, the split of a sample
 * address into wave bank and in-bank address, and the `get_*` accessors that
 * walk a table of fixed-size records and append the decoded records to a
 * caller-owned container.
 */
module ControlRomDecoder {
  import opened Endian
  import opened Records
  import opened Containers

  /** The hardware revision a control ROM image belongs to. */
  datatype SynthModel = VSC | SC55 | SC55mkII | SC88

  const BankCount: nat := 8

  /** Base addresses of the logical tables in a VSC image. */
  const BanksVSC: seq<uint32> :=
    [0x00034, 0x0BD34, 0x0DEF4, 0x10034, 0x1BD34, 0x1DEF4, 0x20034, 0x30000]

  /** Base addresses of the logical tables in an SC-55 family image. */
  const BanksSC55: seq<uint32> :=
    [0x10000, 0x1BD00, 0x1DEC0, 0x20000, 0x2BD00, 0x2DEC0, 0x30000, 0x38080]

  predicate StrictlyIncreasing(s: seq<int>)
  {
    forall i, j :: 0 <= i < j < |s| ==> s[i] < s[j]
  }

  lemma BankTablesShape()
    ensures |BanksVSC| == BankCount && |BanksSC55| == BankCount
    ensures StrictlyIncreasing(BanksVSC) && StrictlyIncreasing(BanksSC55)
    ensures BanksVSC != BanksSC55
  {
    assert BanksVSC[0] != BanksSC55[0];
  }

  /** Where a sample's waveform lives: a linear offset, or a wave bank and a scrambled in-bank address. */
  datatype WaveLocation = Linear(offset: nat) | Banked(bank: nat, scrambled: nat)

  /**
   * The stored sample address read per model: on the VSC it is a plain
   * offset; on the SC-55 family bits 20 and above select the wave bank and the
   * low 20 bits are the (still scrambled) address inside it.
   */
  function LocateWave(model: SynthModel, address: uint32): (loc: WaveLocation)
    ensures loc.Linear? <==> model == VSC
    ensures loc.Linear? ==> loc.offset == address
    ensures loc.Banked? ==> loc.bank < 0x1000 && loc.scrambled < 0x10_0000
    ensures loc.Banked? ==> JoinAddress(loc.bank, loc.scrambled) == address
  {
    if model == VSC then Linear(address)
    else
      SplitJoin(address);
      Banked(WaveBank(address), BankOffset(address))
  }

  // ---------------------------------------------------------------- tables

  lemma MulStep(count: nat, size: nat)
    requires count > 0
    ensures count * size == size + (count - 1) * size
    ensures size <= count * size
  {
  }

  /** The `count` consecutive `size`-byte records of a table that starts at byte `base`. */
  function Table(rom: seq<uint8>, base: nat, size: nat, count: nat): (t: seq<seq<uint8>>)
    requires base + count * size <= |rom|
    ensures |t| == count
    ensures forall i :: 0 <= i < count ==> |t[i]| == size
    decreases count
  {
    if count == 0 then []
    else
      MulStep(count, size);
      [rom[base..base + size]] + Table(rom, base + size, size, count - 1)
  }

  /** Record `i` of a table occupies bytes `base + i * size` up to `base + (i + 1) * size`. */
  lemma {:induction false} TableAt(rom: seq<uint8>, base: nat, size: nat, count: nat, i: nat)
    requires base + count * size <= |rom| && i < count
    ensures base + i * size + size <= |rom|
    ensures Table(rom, base, size, count)[i] == rom[base + i * size..base + i * size + size]
    decreases count
  {
    MulStep(count, size);
    if i > 0 {
      var rest := Table(rom, base + size, size, count - 1);
      assert Table(rom, base, size, count)[i] == rest[i - 1];
      TableAt(rom, base + size, size, count - 1, i - 1);
      MulStep(i, size);
      assert base + size + (i - 1) * size == base + i * size;
    }
  }

  function Flatten(t: seq<seq<uint8>>): seq<uint8>
  {
    if t == [] then [] else t[0] + Flatten(t[1..])
  }

  /** The records of a table cover its byte range exactly, in order, without gaps or overlaps. */
  lemma {:induction false} TableTiles(rom: seq<uint8>, base: nat, size: nat, count: nat)
    requires base + count * size <= |rom|
    ensures Flatten(Table(rom, base, size, count)) == rom[base..base + count * size]
    decreases count
  {
    if count > 0 {
      MulStep(count, size);
      var t := Table(rom, base, size, count);
      assert t[1..] == Table(rom, base + size, size, count - 1);
      TableTiles(rom, base + size, size, count - 1);
      assert rom[base..base + count * size]
          == rom[base..base + size] + rom[base + size..base + size + (count - 1) * size];
    }
  }

  /** The 128 rows of 256 bytes of the variation table span exactly 32768 bytes. */
  lemma VariationTableBytes(rom: seq<uint8>, base: nat)
    requires base + 0x8000 <= |rom|
    ensures |Table(rom, base, VariationRowSize, VariationRows)| == VariationRows
    ensures Flatten(Table(rom, base, VariationRowSize, VariationRows)) == rom[base..base + 0x8000]
  {
    TableTiles(rom, base, VariationRowSize, VariationRows);
  }

  /**
   * The outcome of one accessor call: when the table fits in the image,
   * `after` is `before` followed by the decoded records in table order and
   * the status is the record count; otherwise nothing is appended and the
   * status is -1.
   */
  ghost predicate Extracted<T>(rom: seq<uint8>, base: nat, size: nat, count: nat,
                               decode: seq<uint8> --> T, before: seq<T>, after: seq<T>, status: int)
    requires forall rec :: |rec| == size ==> decode.requires(rec)
  {
    if base + count * size <= |rom| then
      status == count && |after| == |before| + count && after[..|before|] == before &&
      forall i :: 0 <= i < count ==> after[|before| + i] == decode(Table(rom, base, size, count)[i])
    else
      status == -1 && after == before
  }

  /** Every record an accessor appends has each property that the record decoder guarantees. */
  lemma ExtractedRecordsSatisfy<T>(rom: seq<uint8>, base: nat, size: nat, count: nat,
                                   decode: seq<uint8> --> T, before: seq<T>, after: seq<T>, status: int,
                                   property: T -> bool)
    requires forall rec :: |rec| == size ==> decode.requires(rec) && property(decode(rec))
    requires Extracted(rom, base, size, count, decode, before, after, status)
    ensures forall k :: |before| <= k < |after| ==> property(after[k])
  {
    if base + count * size <= |rom| {
      var t := Table(rom, base, size, count);
      forall k | |before| <= k < |after|
        ensures property(after[k])
      {
        var i := k - |before|;
        assert after[|before| + i] == decode(t[i]);
      }
    }
  }

  /** An accessor called twice on the same image and the same container contents gives the same result. */
  lemma ExtractionRepeatable<T>(rom: seq<uint8>, base: nat, size: nat, count: nat,
                                decode: seq<uint8> --> T, before: seq<T>,
                                after1: seq<T>, status1: int, after2: seq<T>, status2: int)
    requires forall rec :: |rec| == size ==> decode.requires(rec)
    requires Extracted(rom, base, size, count, decode, before, after1, status1)
    requires Extracted(rom, base, size, count, decode, before, after2, status2)
    ensures after1 == after2 && status1 == status2
  {
    if base + count * size <= |rom| {
      var t := Table(rom, base, size, count);
      forall k | 0 <= k < |after1|
        ensures after1[k] == after2[k]
      {
        if k < |before| {
          assert after1[k] == after1[..|before|][k];
          assert after2[k] == after2[..|before|][k];
        } else {
          var i := k - |before|;
          assert after1[|before| + i] == decode(t[i]) == after2[|before| + i];
        }
      }
    }
  }

  /** A loaded control ROM image and the hardware revision identified for it. */
  class ControlRom {
    /** Byte order of the machine running the decoder, as `_le_native` observes it. */
    const host: ByteOrder
    const romData: seq<uint8>
    const synthModel: SynthModel

    constructor (rom: seq<uint8>, model: SynthModel, hostOrder: ByteOrder)
      ensures romData == rom && synthModel == model && host == hostOrder
    {
      romData := rom;
      synthModel := model;
      host := hostOrder;
    }

    /** `_get_banks`: the bank table of the identified model. */
    function GetBanks(): (banks: seq<uint32>)
      ensures |banks| == BankCount && StrictlyIncreasing(banks)
      ensures banks == BanksVSC <==> synthModel == VSC
      ensures banks == BanksSC55 <==> synthModel != VSC
    {
      BankTablesShape();
      if synthModel == VSC then BanksVSC else BanksSC55
    }

    /** The loop shared by the accessors: walk `count` records of `size` bytes from bank `bank`. */
    method Extract<T>(bank: nat, size: nat, count: nat, decode: seq<uint8> --> T, out: Vector<T>)
      returns (status: int)
      requires bank < BankCount
      requires forall rec :: |rec| == size ==> decode.requires(rec)
      modifies out
      ensures Extracted(romData, GetBanks()[bank], size, count, decode, old(out.elems), out.elems, status)
    {
      var base := GetBanks()[bank];
      if |romData| < base + count * size {
        return -1;
      }
      var records := Table(romData, base, size, count);
      var i := 0;
      while i < count
        invariant 0 <= i <= count
        invariant |out.elems| == |old(out.elems)| + i
        invariant out.elems[..|old(out.elems)|] == old(out.elems)
        invariant forall k :: 0 <= k < i ==> out.elems[|old(out.elems)| + k] == decode(records[k])
      {
        out.PushBack(decode(records[i]));
        i := i + 1;
      }
      status := count;
    }

    /** `get_samples`: `count` 16-byte sample records from bank `bank`. */
    method GetSamples(bank: nat, count: nat, decode: seq<uint8> --> Sample, out: Vector<Sample>)
      returns (status: int)
      requires bank < BankCount
      requires forall rec :: |rec| == SampleSize ==> decode.requires(rec)
      modifies out
      ensures Extracted(romData, GetBanks()[bank], SampleSize, count, decode, old(out.elems), out.elems, status)
    {
      status := Extract(bank, SampleSize, count, decode, out);
    }

    /** `get_partials`: `count` 48-byte partial records from bank `bank`. */
    method GetPartials(bank: nat, count: nat, decode: seq<uint8> --> Partial, out: Vector<Partial>)
      returns (status: int)
      requires bank < BankCount
      requires forall rec :: |rec| == PartialSize ==> decode.requires(rec) && ValidPartial(decode(rec))
      modifies out
      ensures Extracted(romData, GetBanks()[bank], PartialSize, count, decode, old(out.elems), out.elems, status)
      ensures forall k :: |old(out.elems)| <= k < |out.elems| ==> ValidPartial(out.elems[k])
    {
      status := Extract(bank, PartialSize, count, decode, out);
      ExtractedRecordsSatisfy(romData, GetBanks()[bank], PartialSize, count, decode,
                              old(out.elems), out.elems, status, ValidPartial);
    }

    /** `get_instruments`: `count` 204-byte instrument records from bank `bank`, two slots each. */
    method GetInstruments(bank: nat, count: nat, nameOf: seq<uint8> -> string,
                          slotOf: seq<uint8> -> InstPartial, out: Vector<Instrument>)
      returns (status: int)
      requires bank < BankCount
      requires forall block :: |block| == InstPartialSize ==> ValidInstPartial(slotOf(block))
      modifies out
      ensures Extracted(romData, GetBanks()[bank], InstrumentSize, count,
                        rec requires |rec| == InstrumentSize => DecodeInstrument(nameOf, slotOf, rec),
                        old(out.elems), out.elems, status)
      ensures forall k :: |old(out.elems)| <= k < |out.elems| ==> ValidInstrument(out.elems[k])
    {
      var decode := rec requires |rec| == InstrumentSize => DecodeInstrument(nameOf, slotOf, rec);
      status := Extract(bank, InstrumentSize, count, decode, out);
      ExtractedRecordsSatisfy(romData, GetBanks()[bank], InstrumentSize, count, decode,
                              old(out.elems), out.elems, status, ValidInstrument);
    }

    /** `get_drumSet`: `count` 1164-byte drum-set records from bank `bank`. */
    method GetDrumSet(bank: nat, count: nat, out: Vector<DrumSet>) returns (status: int)
      requires bank < BankCount
      modifies out
      ensures Extracted(romData, GetBanks()[bank], DrumSetSize, count,
                        rec requires |rec| == DrumSetSize => DecodeDrumSet(host, rec),
                        old(out.elems), out.elems, status)
      ensures forall k :: |old(out.elems)| <= k < |out.elems| ==> ValidDrumSet(out.elems[k])
    {
      var decode := rec requires |rec| == DrumSetSize => DecodeDrumSet(host, rec);
      status := Extract(bank, DrumSetSize, count, decode, out);
      ExtractedRecordsSatisfy(romData, GetBanks()[bank], DrumSetSize, count, decode,
                              old(out.elems), out.elems, status, ValidDrumSet);
    }

    /** `get_variations`: the 128 rows of the variation table from bank `bank`. */
    method GetVariations(bank: nat, out: Vector<Variation>) returns (status: int)
      requires bank < BankCount
      modifies out
      ensures Extracted(romData, GetBanks()[bank], VariationRowSize, VariationRows,
                        rec requires |rec| == VariationRowSize => DecodeVariation(host, rec),
                        old(out.elems), out.elems, status)
      ensures forall k :: |old(out.elems)| <= k < |out.elems| ==> |out.elems[k].variation| == VariationEntries
    {
      var decode := rec requires |rec| == VariationRowSize => DecodeVariation(host, rec);
      status := Extract(bank, VariationRowSize, VariationRows, decode, out);
      ExtractedRecordsSatisfy(romData, GetBanks()[bank], VariationRowSize, VariationRows, decode,
                              old(out.elems), out.elems, status,
                              (row: Variation) => |row.variation| == VariationEntries);
    }
  }
}
