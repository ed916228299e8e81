# EmuSC control ROM decoder — Dafny model

EmuSC emulates the Roland Sound Canvas. Its `ControlRom` class (src/control_rom.h) turns a
control-ROM byte image into the tables the synthesis engine uses: samples, partials,
instruments, drum sets and variations. This project models what that header fixes:

- **Endian** (`endian.dfy`): bytes as `uint8`, hosts of either byte order, `_le_native`, and
  the three `_native_endian_*` field readers. Each reader is proved to return the stored value
  whatever the host order. Storing a value and reading it back returns the value. Reading bytes
  and storing the value back returns the bytes.
- **Records** (`records.dfy`): `Sample`, `Partial`, `InstPartial`, `Instrument`, `DrumSet`
  and `Variation` with their fixed record sizes. It also holds the sample-address split into
  wave bank and in-bank address, the loop point, the loop-mode codes and the NUL-padded name
  fields. The drum set (1164 bytes) and the variation row (256 bytes) are the two records
  whose declared fields add up exactly to the record size. Both are decoded field by field,
  and a round trip is proved for each.
- **ControlRomDecoder** (`control_rom.dfy`): the `SynthModel` enum and the two 8-entry bank
  tables. The `ControlRom` class holds the image, the identified model and the host byte
  order. `_get_banks` is modelled, and so are the five `get_*` accessors. Each accessor walks
  a table of fixed-size records from a bank base address. It appends the decoded records to a
  caller-owned `Vector` (the `std::vector` out-parameter). It returns the record count, or
  -1 when the table runs past the end of the image.
- **Containers** (`containers.dfy`): `Option` and the caller-owned `Vector`.

Stored multi-byte fields are read as little-endian (`RomByteOrder`). For 3-byte fields the
third byte is the most significant. Every proof about the readers is stated for an arbitrary
stored order, so the results still hold if the ROM turns out to be big-endian.

The instrument comment calls the 20 extra bytes a "header", so the model puts them in front
of the two 92-byte slots.

## Model

| member | source | states |
|---|---|---|
| `ControlRomDecoder.BankTablesShape` | src/control_rom.h:38-41 | both bank tables have 8 entries, each is strictly increasing, and the two differ |
| `ControlRomDecoder.ControlRom.GetBanks` | src/control_rom.h:38-54 | `_get_banks` returns an 8-entry, strictly increasing table; it is the VSC table exactly when the model is `sm_VSC` and the SC-55 table exactly otherwise; it reads state and changes none |
| `ControlRomDecoder.ControlRom.constructor` | src/control_rom.h:49-66 | the object holds the image bytes, the identified model and the host byte order |
| `Endian.LeNative` | src/control_rom.h:57 | storing the 16-bit value 1 and testing its first byte reports true exactly on a little-endian host |
| `Endian.NativeEndian` | src/control_rom.h:56-61 | copying the field bytes as-is or reversed (by comparing the `_le_native` answer with the stored order) and loading them natively gives the stored value on every host |
| `Endian.NativeEndianUint16` | src/control_rom.h:59 | the 16-bit reader returns the stored value of the two bytes, below 2^16, independent of the host |
| `Endian.NativeEndian3BytesUint32` | src/control_rom.h:60 | the 3-byte reader returns the stored value of the three bytes zero-extended to 32 bits, below 2^24, independent of the host |
| `Endian.NativeEndian4BytesUint32` | src/control_rom.h:61 | the 4-byte reader returns the stored value of the four bytes, independent of the host |
| `Endian.ZeroExtend` | src/control_rom.h:60 | adding a zero byte at the most significant end keeps a field's value |
| `Endian.HostIndependent16` | src/control_rom.h:59 | a little-endian and a big-endian host read every 2-byte field identically, wherever it lies in the image |
| `Endian.HostIndependent24` | src/control_rom.h:60 | a little-endian and a big-endian host read every 3-byte field identically, wherever it lies in the image |
| `Endian.HostIndependent32` | src/control_rom.h:61 | a little-endian and a big-endian host read every 4-byte field identically, wherever it lies in the image |
| `Endian.Uint16RoundTrip` | src/control_rom.h:59 | a 16-bit value stored in ROM order reads back as itself on any host, and two bytes read and stored again give the same bytes |
| `Endian.Uint24RoundTrip` | src/control_rom.h:60 | the same two-way round trip for 24-bit values and 3-byte fields |
| `Endian.Uint32RoundTrip` | src/control_rom.h:61 | the same two-way round trip for 32-bit values and 4-byte fields |
| `Endian.ValueOfBytes` | src/control_rom.h:56-61 | storing a value in a byte order and loading it in the same order returns the value |
| `Endian.BytesOfValue` | src/control_rom.h:56-61 | loading bytes in a byte order and storing the value in the same order returns the bytes |
| `Records.WaveBank` | src/control_rom.h:73-74 | `address >> 20` selects one of 4096 wave banks |
| `Records.BankOffset` | src/control_rom.h:73-74 | `address & 0xFFFFF` is below 2^20 |
| `Records.JoinAddress` | src/control_rom.h:73-74 | putting the bank above bit 20 and the offset below it gives back the bank and the offset |
| `Records.SplitJoin` | src/control_rom.h:73-74 | recombining the bank and in-bank address of any 32-bit address gives the address |
| `Records.JoinSplit` | src/control_rom.h:73-74 | a bank below 4096 and an offset below 2^20 join into a 32-bit address that splits back into them |
| `ControlRomDecoder.LocateWave` | src/control_rom.h:73-74 | on the VSC the stored address is the offset; on every other model it is a bank and a scrambled in-bank address that recombine into the stored address |
| `Records.LoopPoint` | src/control_rom.h:76-77 | the loop point `sampleLen - loopLen - 1` lies in `[0, sampleLen)` exactly when `loopLen < sampleLen` |
| `Records.LoopModeOf` | src/control_rom.h:78-79 | loop mode codes 0, 1 and 2 are forward, forward-then-back and no loop; every other code is undefined; 2 is the only non-looping code |
| `Records.LoopModeCode` | src/control_rom.h:78-79 | each loop mode's code is at most 2 |
| `Records.LoopModeRoundTrip` | src/control_rom.h:78-79 | each loop mode's code decodes back to that mode |
| `Records.DecodeName` | src/control_rom.h:154 | a fixed-width name field becomes the text of its bytes up to the trailing NUL fill; the name is no longer than the field and does not end in NUL |
| `Records.EncodeName` | src/control_rom.h:154 | a name that fits is padded with NUL bytes to the field width |
| `Records.NameRoundTrip` | src/control_rom.h:154 | a name without a trailing NUL, padded into its field and read back, is unchanged |
| `Records.NameFieldRoundTrip` | src/control_rom.h:154 | every name field reads as a name that fits the field, and padding that name back gives the field |
| `Records.SlotBytes` | src/control_rom.h:140-143 | each partial slot of a 204-byte instrument record is a 92-byte block |
| `Records.InstrumentRecordLayout` | src/control_rom.h:140-143 | the 20-byte header and the two 92-byte slot blocks make up the whole 204-byte instrument record |
| `Records.DecodeInstrument` | src/control_rom.h:93-143 | an instrument has exactly two partial slots, slot j decoded from its own 92-byte block; when the slot reader gives an index and 40 parameters, so does each slot |
| `Records.UsedSlots` | src/control_rom.h:93-94 | the slots listed, in increasing order, are exactly those whose partial index is not the unused marker 0xFFFF |
| `Records.DecodedUsedSlots` | src/control_rom.h:93-94 | slot j of a decoded instrument is listed as used exactly when the partial index read from its block is not 0xFFFF |
| `Records.UsedSlotsFrom` | src/control_rom.h:93-94 | from a starting slot on, the slots listed are exactly the used ones, in increasing order |
| `Records.DecodeUint16s` | src/control_rom.h:146 | a run of 16-bit fields decodes to one stored value per two bytes |
| `Records.EncodeUint16s` | src/control_rom.h:146 | 16-bit values encode to two bytes each, in ROM order |
| `Records.Uint16sRoundTrip` | src/control_rom.h:146 | encoded 16-bit values decode back to the same values on any host |
| `Records.DecodedRunEncodes` | src/control_rom.h:146 | a run of 16-bit fields, decoded on any host and encoded again, gives back its bytes |
| `Records.KeyArray` | src/control_rom.h:147-153 | each of the seven 8-bit per-key arrays of a drum-set record has 128 entries |
| `Records.DecodeDrumSet` | src/control_rom.h:145-155 | a 1164-byte drum-set record gives 128 presets, seven 128-entry byte arrays and a name of at most 12 characters |
| `Records.EncodeDrumSet` | src/control_rom.h:145-155 | a well-formed drum set encodes to exactly 128·2 + 7·128 + 12 = 1164 bytes |
| `Records.DrumSetRoundTrip` | src/control_rom.h:145-155 | an encoded drum set decodes back to itself on any host |
| `Records.DrumSetRecordRoundTrip` | src/control_rom.h:145-155 | every 1164-byte drum-set record, decoded on any host and encoded again, gives back the record, so no byte is ignored |
| `Records.FlagMeaning` | src/control_rom.h:153 | key k of a decoded drum set takes its flags from byte k of the record's flag array; a key flagged 0x10 receives note-on and not note-off, a key flagged 0x01 note-off and not note-on |
| `Records.DecodeVariation` | src/control_rom.h:157-159 | a 256-byte variation row decodes to 128 16-bit entries |
| `Records.EncodeVariation` | src/control_rom.h:157-159 | a 128-entry row encodes to 256 bytes |
| `Records.VariationRoundTrip` | src/control_rom.h:157-159 | an encoded variation row decodes back to itself on any host |
| `Records.VariationRowRoundTrip` | src/control_rom.h:157-159 | every 256-byte variation row, decoded on any host and encoded again, gives back the row |
| `ControlRomDecoder.VariationTableBytes` | src/control_rom.h:157-158 | the 128 rows of 256 bytes span exactly 32768 bytes of the image, in order |
| `ControlRomDecoder.Table` | src/control_rom.h:161-165 | a table in range has `count` records of `size` bytes each |
| `ControlRomDecoder.TableAt` | src/control_rom.h:161-165 | record i of a table is the bytes from `base + i*size` to `base + (i+1)*size` |
| `ControlRomDecoder.TableTiles` | src/control_rom.h:161-165 | a table's records cover its byte range exactly, in order, with no gaps or overlaps |
| `ControlRomDecoder.ExtractedRecordsSatisfy` | src/control_rom.h:161-165 | every record an accessor appends has each property its record decoder guarantees |
| `ControlRomDecoder.ExtractionRepeatable` | src/control_rom.h:161-165 | two calls of an accessor on the same image and the same container contents give the same contents and status |
| `ControlRomDecoder.ControlRom.Extract` | src/control_rom.h:161-165 | within the image: the container gains the decoded records in table order and the status is their count; past its end: the container is unchanged and the status is -1 |
| `ControlRomDecoder.ControlRom.GetSamples` | src/control_rom.h:163 | `get_samples` appends the 16-byte sample records of the table, or fails without appending |
| `ControlRomDecoder.ControlRom.GetPartials` | src/control_rom.h:162 | `get_partials` appends the 48-byte partial records, each with 16 breakpoints and 16 sample indices, or fails without appending |
| `ControlRomDecoder.ControlRom.GetInstruments` | src/control_rom.h:161 | `get_instruments` appends the 204-byte instrument records, each with exactly two partial slots of a 16-bit index and 40 signed parameters, or fails without appending |
| `ControlRomDecoder.ControlRom.GetDrumSet` | src/control_rom.h:165 | `get_drumSet` appends the 1164-byte drum-set records, each with eight 128-entry arrays and a short name, or fails without appending |
| `ControlRomDecoder.ControlRom.GetVariations` | src/control_rom.h:164 | `get_variations` appends the 128 rows of 128 entries of the variation table, or fails without appending |

## Left out

- `_identify_model` (src/control_rom.h:53): the signature bytes it probes are defined in control_rom.cc, which is not part of this model. The constructor takes the identified model as an argument. A failed identification is not modelled.
- Reading the ROM file in the constructor (src/control_rom.h:29, 66) is file I/O. The model's constructor takes the image bytes.
- `dump_demo_songs` (src/control_rom.h:167) is file I/O.
- `Config` (src/control_rom.h:37) is an external collaborator held by reference.
- src/midi_input_alsa.h is the ALSA MIDI transport, which is platform I/O and threading.
- ControlRomDecoder.ControlRom.GetSamples: does not descramble SC-55 sample addresses or fetch the waveform into `sampleSet`, because that transform is not in the header. The 16-byte record decoder is a parameter. The appended samples are not guaranteed to have `loopLen <= sampleLen` or a loop-mode code of at most 2, because the decoder does not check ROM content. `LoopPoint` and `LoopModeOf` state what those fields mean for a sample that does.
- ControlRomDecoder.ControlRom.GetPartials: the field order inside a 48-byte partial record is not in the header, so its decoder is a parameter. The model requires that decoder to give 16 breakpoints and 16 sample indices.
- ControlRomDecoder.ControlRom.GetInstruments: where the name sits and how a 92-byte slot block holds its fields are not in the header. The name reader and the slot reader are parameters. The model requires the slot reader to give 40 parameters for every 92-byte block, as the slot layout fixes.
- Records.Partial: that sample index 0 is the default sample and higher indices belong to the breakpoints is a convention of the synthesis engine, not of the decoder. The model keeps the 16 indices as read and states nothing about entry 0.
- Each accessor's bank entry and record count are fixed in control_rom.cc, so each accessor takes them as arguments. The variation table's 128 rows are the exception, because the header fixes them. The accessors' status values are this model's choice: the record count, or -1 for a table that runs past the image.
- The meaning of the 40 `InstPartial` envelope and LFO parameters is left out, because the source marks them "Not used yet". They are kept as a sequence of signed bytes.
- The drum-set decoder reads the fields in their declared order. The name is padded with NUL bytes; other fill characters are not trimmed.
- Integer widths are subset types of `int`. `>> 20` and `& 0xFFFFF` on a `uint32_t` are written as division and remainder by 2^20, which agree for unsigned values.
