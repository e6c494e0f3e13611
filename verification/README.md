# WePower beacon core, modelled in Dafny

This project models the firmware of the WePower energy-harvesting BLE beacon,
a Zephyr application for the nRF. Each press of the harvester wakes the
device, which then does the following:

1. Loads its 54-byte configuration record from an I2C FRAM.
2. Builds a 16-byte advertising block: type, 24-bit event counter, sensor,
   polarity or name bytes, and the 16-bit device id.
3. Raises the lifetime event counter and writes it back to the FRAM.
4. Seals the block with AES, falling back to clear text, into a 22-byte
   manufacturer-specific frame.
5. Sends a burst of advertisements stamped with a repeat counter, then
   schedules the next event or burns the remaining energy.

In configuration mode, a UART shell instead lets the user GET, SET, CLEAR,
RESET, PRESET and DUMP the FRAM fields and run hardware self-tests.

The model is functional, and values are explicit machine integers. Plain
`int`/`nat` carry subset types `uint8` … `int32`. Conversions to those types
wrap, C's `/` truncates, and `>>` on signed values shifts arithmetically. The
target is little-endian. The FRAM and the frame are byte sequences. Every
handler is a function from the old state to the new one.

The three defects that change what the configuration path and the sensor
reads do are build parameters, so each statement says which variant it is
about. A `Build` pairs the `FRAM_INFO` table SET and CLEAR consult with the
layout the dump reads into. `AsBuilt` is the firmware: 14 table entries and
the padded C struct. `Corrected` has one entry per field and the packed
image. `main` takes the layout alone.

Hardware is replaced by parameters:
- **I2C:** each transaction takes a `Bus(ready, transferOk)` value. Handlers
  that run many transactions take an oracle `bus: nat -> Bus`.
- **Sensors:** the DRDY polls are `busy: nat -> bool`. The bytes a sensor read
  returns are an `Option`. The test applied to the wait's counter is a
  `TimeoutTest`: `AsWritten` is the firmware's, `Intended` the one it was
  meant to be.
- **Cipher:** AES is a partial function from 16 clear bytes to 16 cipher
  bytes.
- **Comparators:** the mode and polarity comparators are input values.

Modules, one per file:
- **MachineInt**, **Optional:** the integer and option vocabulary.
- **FramLayout:** field numbering, widths, addresses, the field lookup, the
  big-endian bus address, and the C layout of `fram_data_t`.
- **FramRecord:** the RAM record and its packed and struct byte images.
- **FramStore:** the FRAM driver.
- **FramImage:** bookkeeping shared by the RESET and PRESET proofs.
- **ConfigTable:** the bounds, the `FRAM_INFO` table and the presets.
- **ConfigCommands:** the command processor.
- **Cli:** the shell handlers as command-record builders.
- **SelfTest:** the hardware tests.
- **DataReady:** the DRDY wait.
- **Accel**, **TempPressure:** the sensor decoders.
- **Payload:** the block and frame layout, and `encrypt_data`.
- **ManufData:** `update_manufacture_data` and `measure_sensor_data`.
- **EventCycle:** the timer tick, events and `main`.

## Model

| member | source | states |
|---|---|---|
| FramLayout.FieldOf | components/fram/include/fram.h:68-86 | A number names a field exactly when it is below MAX_FRAM_FIELDS, and the field it names carries that number. |
| FramLayout.IndexRoundTrip | components/fram/include/fram.h:68-86 | Every field is named by its own enumerator, which is below 15. |
| FramLayout.AddrChain | components/fram/include/fram.h:9-38 | Each field after the event counter starts where the field numbered before it ends. |
| FramLayout.AddrIsWidthsBelow | components/fram/include/fram.h:9-38 | Each field's address is the total width of the fields numbered before it: enum order is address order, with no gaps. |
| FramLayout.WidthsBelowTotal | components/fram/include/fram.h:9-38 | The fifteen widths add up to the 54-byte layout. |
| FramLayout.FieldsDisjoint | components/fram/include/fram.h:9-38 | Two distinct fields never share a byte. |
| FramLayout.Owner | components/fram/include/fram.h:9-38 | Every byte below 54 lies inside some field, so the fields cover the layout. |
| FramLayout.Lookup | components/fram/src/fram.c:103-172 | A number naming no field gets address 0 and width 0. Every lookup stays inside the 54-byte layout. |
| FramLayout.LookupField | components/fram/src/fram.c:103-172 | A field number is looked up to that field's header address and width. |
| FramLayout.LookupIsPacked | components/fram/src/fram.c:103-172 | The looked-up address of field k is the total width of fields 0 .. k-1. |
| FramLayout.AddrBytes | components/fram/src/fram.c:44-45 | The two address bytes sent are high byte then low byte, and their big-endian reading is the address. |
| FramLayout.AddrBytesInjective | components/fram/src/fram.c:44-45 | Distinct 16-bit addresses are sent as distinct byte pairs. |
| FramLayout.MemberSizeIsWidth | components/fram/include/fram.h:45-62 | Each `fram_data_t` member is exactly as wide as the field it mirrors. |
| FramLayout.StructOffsetsFollowLayoutRule | components/fram/include/fram.h:45-62 | The struct offsets used are the ones the C layout rule gives with ARM EABI alignments. The struct size is the end rounded up to 4. |
| FramLayout.StructOffsetsAgainstAddresses | components/fram/include/fram.h:33-62 | Members up to VBULK_THRESH sit at their FRAM addresses. The two polarity counters sit 2 bytes past theirs (48/52, not 46/50). The struct is 56 bytes. |
| FramRecord.DecodeSlot | components/fram/include/fram.h:45-62 | Each member of a decoded record has exactly the bytes at its place in the image. |
| FramRecord.MemberBytesRoundTrip | components/fram/include/fram.h:45-62 | A numeric member's little-endian bytes read back as the member. |
| FramRecord.NumericMemberBytes | components/fram/include/fram.h:45-62 | A numeric member is stored as its value, little-endian, in its field's width of at most 4 bytes. |
| FramRecord.MemberBytesInjective | components/fram/include/fram.h:45-62 | Records whose members have the same bytes are equal. |
| FramRecord.EncodeSlot | components/fram/include/fram.h:9-62 | In the packed image, every member sits at its field's address. |
| FramRecord.DecodeEncode | components/fram/include/fram.h:9-62 | Decoding the packed image of a record gives the record back. |
| FramRecord.EncodeDecode | components/fram/include/fram.h:9-62 | Encoding the record decoded from any 54 bytes gives those bytes back. |
| FramRecord.DecodeOfImage | components/fram/include/fram.h:9-62 | A memory whose first 54 bytes are a record's image decodes to that record. |
| FramRecord.StructSlotsBelowCounters | components/fram/include/fram.h:33-62 | A bulk read into the struct fills each member up to VBULK_THRESH from exactly its FRAM field. |
| FramRecord.StructSlotOfNegativeCounter | components/fram/include/fram.h:33-62 | A bulk read into the struct fills the negative counter from FRAM bytes 48..51, not 46..49. |
| FramRecord.StructSlotOfPositiveCounter | components/fram/include/fram.h:33-62 | A bulk read into the struct fills the positive counter from bytes 52..55, two of them past the layout. |
| FramRecord.StructImageCounterExample | components/fram/include/fram.h:33-62 | On a concrete image whose packed negative counter is 0x04030201, the struct reads 0x0403. |
| FramStore.BulkSizeIsSizeof | components/fram/src/fram.c:252-316 | The bulk transfers move sizeof(fram_data_t) = 56 bytes. |
| FramStore.ReadField | components/fram/src/fram.c:181-209 | Success exactly when the device is ready and the transfer succeeds. On success the bytes are the field's slice of the FRAM; an unknown field reads nothing. |
| FramStore.WriteFieldAsWritten | components/fram/src/fram.c:218-244 | The driver as written reports success exactly when the device is ready, whatever the transfer did. |
| FramStore.WriteField | components/fram/src/fram.c:218-244 | On success, the field's slice becomes the first `width` bytes of the data. Nothing outside the field changes. An unknown field changes nothing. Success is reported exactly when ready and transferred. |
| FramStore.ReadAfterWrite | components/fram/src/fram.c:181-244 | A field written successfully reads back as the bytes written. |
| FramStore.WriteLeavesOtherFields | components/fram/src/fram.c:181-244 | Writing one field never changes what another field reads. |
| FramStore.WriteFieldAsWrittenMasksFailure | components/fram/src/fram.c:235-243 | On a failed transfer the driver as written reports success with the FRAM unchanged; the corrected driver reports the error. |
| FramStore.ReadData | components/fram/src/fram.c:252-271 | On success, the bulk read returns the first 56 FRAM bytes. |
| FramStore.WriteData | components/fram/src/fram.c:279-316 | On success, the first 56 bytes become the record and the rest is kept. On failure nothing changes. |
| FramStore.BulkRoundTrip | components/fram/src/fram.c:252-316 | A record written in bulk reads back unchanged. |
| FramStore.ReadCounter | components/fram/src/fram.c:324-348 | The counter read is the 4-byte read of field EV_CTR at address 0. |
| FramStore.WriteCounter | components/fram/src/fram.c:358-382 | On success, the stored counter reads back as the value written. Only the 4 counter bytes can change. |
| FramStore.WriteCounterAt | components/fram/src/fram.c:358-442 | A 32-bit value is written little-endian to 4 bytes at the address, reads back as itself, and nothing else changes. |
| FramStore.WriteCounterPos | components/fram/src/fram.c:390-412 | The positive counter is written little-endian at POS_EVT_CTR_ADDR and nothing else changes. |
| FramStore.WriteCounterNeg | components/fram/src/fram.c:420-442 | The negative counter is written little-endian at NEG_EVT_CTR_ADDR and nothing else changes. |
| FramStore.UpdatePolCounters | components/fram/src/fram.c:500-504 | Only the two counter fields change, and each holds its new value when its write succeeds. |
| FramStore.Service | components/fram/src/fram.c:450-493 | On success, the stored counter and the returned one are both the old stored counter plus 1 modulo 2^32. On any failure the caller's counter and the FRAM are unchanged. |
| FramImage.StoreNextField | components/config_commands/src/config_commands.c:535-612 | Writing field i's bytes of a target image extends the image prefix the store holds by that field. |
| FramImage.WriteSlot | components/fram/src/fram.c:218-244 | A successful write of field i fills that field's slot with the data's first bytes. |
| ConfigTable.InfoLengthIsWidth | components/config_commands/src/config_commands.c:108-124 | With one entry per field, every FRAM_INFO length is the driver's width for that field. |
| ConfigTable.InfoFormats | components/config_commands/src/config_commands.c:108-124 | Only the name is a string and only the key a byte array; every other field is a number. |
| ConfigTable.InfoBounds | components/config_commands/include/config_commands.h:11-47 | Every numeric default lies within its bounds, and every maximum fits in its field's bytes. |
| ConfigTable.InfoAsWrittenShifted | components/config_commands/src/config_commands.c:108-124 | The entries as initialised match the fields up to NAME. Slot 12 (VBULK_THRESH) holds the 4-byte counter entry, slot 13 the positive counter's, and slot 14 is zero-filled. |
| ConfigTable.DeviceTypeBoundAdmitsCount | components/config_commands/include/config_commands.h:19-20 | The device-type bound is DEVICE_TYPE_MAX_VALUE = 5, past the last device type. |
| ConfigTable.PresetWithinBounds | components/config_commands/src/config_commands.c:130-234 | Preset p configures device type p, and every numeric member of every preset lies within its FRAM_INFO bounds. |
| ConfigCommands.EntryInTable | components/config_commands/src/config_commands.c:108-124 | Under either table, numeric entries describe fields of at most 4 bytes. The string and byte-array entries describe the name and the key with their own widths. |
| ConfigCommands.FieldByte | components/config_commands/include/config_commands.h:105-111 | The driver gets the int8 index as itself inside the table and as a number of 15 or more otherwise. |
| ConfigCommands.SetValue | components/config_commands/src/config_commands.c:626-631 | The assembled value is the little-endian reading of the first data_len bytes (at most 4). |
| ConfigCommands.AccumulateValue | components/config_commands/src/config_commands.c:626-631 | The shift-and-add loop computes that value. |
| ConfigCommands.SetField | components/config_commands/src/config_commands.c:618-727 | SET changes nothing outside the indexed field, and nothing for an index outside the table. |
| ConfigCommands.SetNumberCase | components/config_commands/src/config_commands.c:634-668 | A numeric value outside the entry's bounds leaves the store unchanged. One within them goes to the driver as 4 little-endian bytes. |
| ConfigCommands.SetTextCase | components/config_commands/src/config_commands.c:671-722 | A string longer than the entry's length leaves the store unchanged. A shorter string, or any key, goes to the driver as the data bytes. |
| ConfigCommands.SetStoresNumber | components/config_commands/src/config_commands.c:634-668 | An in-bounds value with a successful transfer reads back as the value. An out-of-bounds value or a failed transfer leaves the store unchanged. |
| ConfigCommands.GetAfterSet | components/config_commands/src/config_commands.c:411-463 | GET after an in-bounds numeric SET shows the value set. |
| ConfigCommands.SetStoresText | components/config_commands/src/config_commands.c:671-722 | The key, or a name that fits, is stored byte for byte. A longer name is refused. |
| ConfigCommands.ClearField | components/config_commands/src/config_commands.c:469-520 | CLEAR changes nothing outside the indexed field, and nothing for an index outside the table. |
| ConfigCommands.ClearCase | components/config_commands/src/config_commands.c:469-520 | CLEAR sends 4 zero bytes for a number, spaces for the string and zeros for the byte array. |
| ConfigCommands.ClearStores | components/config_commands/src/config_commands.c:469-520 | Under either table, after CLEAR a number reads 0, the name is all spaces and the key all zeros. |
| ConfigCommands.GetValue | components/config_commands/src/config_commands.c:411-463 | A value is shown only for a numeric entry read successfully, and it is below 2^32. |
| ConfigCommands.SetPositiveCounterAsWritten | components/config_commands/src/config_commands.c:108-124 | With the table as initialised, SET of the positive counter refuses every value but 0. |
| ConfigCommands.SetPositiveCounter | components/config_commands/src/config_commands.c:634-668 | With one entry per field, SET stores any 32-bit value in the positive counter. |
| ConfigCommands.SetThresholdAsWritten | components/config_commands/src/config_commands.c:108-124 | With the table as initialised, SET of VBULK_THRESH accepts any 32-bit value and keeps its low byte. The corrected table refuses values past one byte. |
| ConfigCommands.SetThresholdExample | components/config_commands/src/config_commands.c:108-124 | Setting the threshold to 256 stores 0 as written, and is refused with the corrected table. |
| ConfigCommands.ResetBytesAreDefault | components/config_commands/src/config_commands.c:535-612 | Under either table, the bytes RESET writes to each field are that field's bytes in the default record. |
| ConfigCommands.EntryDefaults | components/config_commands/src/config_commands.c:535-612 | Both tables agree on every entry's format and numeric default. |
| ConfigCommands.DefaultRecordHoldsDefaults | components/config_commands/src/config_commands.c:535-612 | The default record holds every numeric field's FRAM_INFO default. |
| ConfigCommands.ResetFromStores | components/config_commands/src/config_commands.c:535-612 | The reset loop from field i on completes the default image (proved by induction). |
| ConfigCommands.ResetRestoresDefaults | components/config_commands/src/config_commands.c:535-612 | With every transfer succeeding, RESET leaves the default record's image in the FRAM: defaults, spaces and the current key. |
| ConfigCommands.PresetRecordMembers | components/config_commands/src/config_commands.c:272-364 | The record a preset leaves differs from the preset only in the VBULK threshold, which keeps the stored byte. |
| ConfigCommands.PresetWrites | components/config_commands/src/config_commands.c:272-364 | A preset number past 4 changes nothing, and nothing past the layout ever changes. |
| ConfigCommands.PresetFromStores | components/config_commands/src/config_commands.c:272-364 | The preset writes from field i on complete the preset image (proved by induction). |
| ConfigCommands.PresetStores | components/config_commands/src/config_commands.c:272-364 | With every transfer succeeding, PRESET p leaves preset p's image, with the old threshold byte. |
| ConfigCommands.PresetFromKeepsThreshold | components/config_commands/src/config_commands.c:272-364 | The preset writes never touch the threshold byte, whatever the transfers do (proved by induction). |
| ConfigCommands.PresetKeepsThreshold | components/config_commands/src/config_commands.c:272-364 | PRESET leaves VBULK_THRESH as it was. |
| ConfigCommands.PresetIdempotent | components/config_commands/src/config_commands.c:272-364 | Applying a preset twice leaves the same FRAM as applying it once. |
| ConfigCommands.Dump | components/config_commands/src/config_commands.c:372-405 | A failed read leaves the RAM record alone. A successful read into the packed layout yields the record whose image is the first 54 FRAM bytes; the struct layout is stated by DumpLoads. |
| FramRecord.DecodeLoads | components/fram/include/fram.h:33-62 | A bulk read of a record's image gives the record back in the packed layout. In the C struct it gives the record back except the two polarity counters, which come from the 4 bytes two past their fields. |
| ConfigCommands.DumpLoads | components/config_commands/src/config_commands.c:372-405 | A FRAM holding a record's image dumps, under either layout, to what that layout loads of the record. |
| ConfigCommands.DumpOfImage | components/config_commands/src/config_commands.c:372-405 | A FRAM holding a record's image dumps to that record. |
| ConfigCommands.DumpAsWrittenNegativeCounter | components/config_commands/src/config_commands.c:372-405 | The dump into the C struct reads the negative counter from the bytes 2 past its field. |
| ConfigCommands.Store | components/config_commands/src/config_commands.c:744-783 | Under either build (the firmware's 14-entry table, or one entry per field), GET, DUMP and unknown kinds leave the FRAM alone, and no command touches anything past the layout. |
| ConfigCommands.Process | components/config_commands/src/config_commands.c:744-783 | The record is cleared after every command. RESET, DUMP and PRESET end with a dump into the RAM record in the build's layout (the padded struct in the firmware as built), because RESET falls through; other commands leave RAM alone. |
| ConfigCommands.StoreResetPreset | components/config_commands/src/config_commands.c:744-783 | RESET's and PRESET's writes, with the build's table, are their whole effect on the FRAM. |
| ConfigCommands.StoreSetClear | components/config_commands/src/config_commands.c:744-783 | SET's and CLEAR's handlers, with the build's table, are their whole effect on the FRAM. |
| ConfigCommands.SetBeforeThreshold | components/config_commands/src/config_commands.c:744-783 | Under either build, SET of a field before VBULK_THRESH changes the FRAM exactly as the corrected table's SET would. |
| ConfigCommands.TablesAgreeBeforeThreshold | components/config_commands/src/config_commands.c:108-124 | For fields before VBULK_THRESH, SET and CLEAR do the same under the 14-entry table and the corrected one. |
| ConfigCommands.ProcessReset | components/config_commands/src/config_commands.c:762-768 | Under either build, RESET with every transfer succeeding leaves the default image in the FRAM, and the fall-through dump loads that image in the build's layout. With the packed layout RAM holds the default record. |
| ConfigCommands.ResetPositiveCounterAsBuilt | components/config_commands/src/config_commands.c:762-768 | In the firmware as built, the dump after a complete RESET reads the negative counter as 0 and the positive one as 2^16·byte 54 + 2^24·byte 55, bytes nothing writes. So RAM is not the default record whenever byte 54 is non-zero. |
| ConfigCommands.ResetDumpsDefaults | components/config_commands/src/config_commands.c:535-612 | Under either table and layout, the dump after a complete RESET loads the default record's image: the default record itself when packed, and the default with both counters read two bytes late in the struct. |
| ConfigCommands.ProcessPreset | components/config_commands/src/config_commands.c:733-783 | Under either build, PRESET p with every transfer succeeding dumps what the build's layout loads of preset p with the stored threshold byte. With the packed layout that is the preset itself. |
| Cli.Strtoull | main/src/app_cli.c:49 | strtoull is at most ULLONG_MAX, is the value itself when in range, and is 2^63 or more for a negative argument. |
| Cli.Refused | main/src/app_cli.c:55-59 | A refused argument leaves the record zeroed and submits nothing. |
| Cli.SetRecord | main/src/app_cli.c:39-47 | A SET record for field k carries the given bytes, and the rest of its buffer is zero. |
| Cli.SetterMaxFits | main/src/app_cli.c:37-316 | Each numeric setter's bound fits in the at most 4 bytes it sends. |
| Cli.ShiftedBytesAreLe | main/src/app_cli.c:42-45 | The shifted and narrowed bytes are the little-endian store of the value, whatever its sign. |
| Cli.NumericSetterAsWritten | main/src/app_cli.c:37-316 | Submitted exactly when strtoull's value is at most the setter's bound. The bytes sent are atoi's, little-endian. |
| Cli.NumericSetter | main/src/app_cli.c:37-316 | Submitted exactly when strtoull's value is at most the bound. The bytes sent are that value's. |
| Cli.SetterRoundTrip | main/src/app_cli.c:42-59 | For an argument atoi can represent, a setter submits exactly 0 .. bound, and SET reassembles the value typed. |
| Cli.SetterRoundTripCorrected | main/src/app_cli.c:72-95 | With the bytes taken from strtoull, SET reassembles the admitted value for every argument. |
| Cli.SetterAgrees | main/src/app_cli.c:37-316 | The two setters agree wherever atoi is defined. |
| Cli.SerialAboveIntMax | main/src/app_cli.c:72-95 | `s 1 3000000000` is admitted but, as written, stores 2147483647; the corrected setter stores 3000000000. |
| Cli.SetterTargetsField | main/src/app_cli.c:576-589 | Subcommand k sets field k with that field's own maximum. 9 is the key, 11 the name, and 12 .. 14 have no setter. |
| Cli.CliSetStores | main/src/app_cli.c:37-316 | Under either build, an admitted value at or above the table minimum reads back as typed. One below the minimum passes the shell and leaves the FRAM unchanged. |
| Cli.IntervalBelowMinimum | main/src/app_cli.c:136-156 | Under either build, `s 3 5` is submitted by the shell and then refused by SET, because the minimum is 10. |
| Cli.KeyBytes | main/src/app_cli.c:331-346 | Each key byte is the argument narrowed to a byte. |
| Cli.KeySetter | main/src/app_cli.c:326-352 | The key setter always submits a 16-byte SET of field 9, with no bound check. |
| Cli.CliKeyStores | main/src/app_cli.c:326-352 | Under either build, the key typed at the shell is stored byte for byte. |
| Cli.NameSetter | main/src/app_cli.c:393-403 | The name setter always submits the name's bytes, with data_len their count narrowed to a byte. |
| Cli.CliNameStores | main/src/app_cli.c:393-403 | Under either build, a name of at most 10 bytes is stored zero-padded. A longer one is refused, unless its length wraps to 10 or less in data_len. |
| Cli.IndexRecord | main/src/app_cli.c:417-565 | An index command carries atoi of its argument narrowed to int8. |
| Cli.GetCommand | main/src/app_cli.c:417-434 | GET is submitted exactly when the narrowed index is below 15, negative indexes included. |
| Cli.ClearCommand | main/src/app_cli.c:524-541 | CLEAR is submitted exactly when the narrowed index is below 15. |
| Cli.PresetCommand | main/src/app_cli.c:494-510 | PRESET is submitted exactly when the narrowed index is at most 4. |
| Cli.AlwaysCommand | main/src/app_cli.c:448-565 | DUMP, RESET and TEST are always submitted with the narrowed index. |
| Cli.IndexAdmission | main/src/app_cli.c:417-541 | 0 .. 14 pass as themselves. 15 .. 127 are refused. 128 .. 255 pass as negative indexes, and -128 .. -1 pass as themselves. |
| Cli.CliClearEffect | main/src/app_cli.c:524-541 | Under either build, a negative CLEAR index clears nothing. An index naming a numeric field clears it to 0. |
| Cli.CliPresetEffect | main/src/app_cli.c:494-510 | Under either build, presets 0 .. 4 load what the build's layout makes of that preset. A negative number passes the shell, writes nothing and only dumps, in the build's layout. |
| Cli.PresetOutOfRange | components/config_commands/src/config_commands.c:272-364 | Under either build, a preset number past 4 writes nothing and dumps the FRAM as it was, in the build's layout. |
| SelfTest.ReadInto | main/src/app_tests.c:28-35 | A read into an n-byte zeroed buffer leaves n bytes. |
| SelfTest.FramTestAsWritten | main/src/app_tests.c:26-46 | With one-byte locals and two-byte transfers, the test as written keeps the FRAM size and changes nothing outside field 4, wherever the three locals sit on the stack. |
| SelfTest.FramTestAsWrittenBytes | main/src/app_tests.c:26-46 | With every transfer succeeding, the as-written test passes unless the read-back buffer lies just before the test value and the byte after the test value is not 33. Field 4 keeps its low byte unless the read-back buffer lies just before the saved buffer; it then becomes 0 or the stack byte after the test value. It keeps its high byte unless the saved buffer lies just before the read-back buffer; it then becomes 33. |
| SelfTest.FramTestAsWrittenRestores | main/src/app_tests.c:26-46 | With every transfer succeeding and neither of the read-back and saved buffers just after the other, the as-written test leaves the FRAM exactly as it was. |
| SelfTest.FramTestAsWrittenExample | main/src/app_tests.c:26-46 | With the read-back buffer just after the saved one, field 4 holding 254 passes the test and is left with bytes 254, 33 (8702). |
| SelfTest.FramTestAsWrittenClobbersSaved | main/src/app_tests.c:26-46 | With the test value, read-back and saved buffers one after another, field 4 holding 254 passes the test and is left at 0. |
| SelfTest.FramTestAsWrittenSpuriousFailure | main/src/app_tests.c:35-44 | With the read-back buffer just before the test value and the saved buffer after it, the test fails although every transfer succeeds and the FRAM is restored, unless field 4's low byte is 33. |
| SelfTest.FramTest | main/src/app_tests.c:26-46 | The test changes nothing outside field 4. |
| SelfTest.FramTestRestores | main/src/app_tests.c:26-46 | With every transfer succeeding the test passes and the FRAM is exactly as before. |
| SelfTest.FramTestVerdict | main/src/app_tests.c:35-44 | The test passes exactly when the read-back succeeds and returns 33. |
| SelfTest.FramTestFailedSaveClears | main/src/app_tests.c:29-45 | A failed save leaves the buffer 0, so the final write clears field 4. |
| SelfTest.RunTest | main/src/app_tests.c:89-116 | Test 1 runs the two-byte FRAM test. Tests 2 .. 4 are sensor tests that leave the FRAM alone. Any other number does nothing. |
| DataReady.FirstReady | components/accel/src/accel.c:187-193 | Finds the first poll on which DRDY asserts, or none. |
| DataReady.WaitAsWritten | components/accel/src/accel.c:187-193 | The loop with the post-decremented uint16 counter computes the as-written counter and the number of sleeps. |
| DataReady.TimeoutAsWrittenMisfires | components/accel/src/accel.c:187-199 | As written, the `timeout == 0` test fires exactly when DRDY first asserts on poll 100. When DRDY never asserts the counter is 65535. |
| DataReady.TimeoutAsWrittenExamples | components/temp_pressure/src/temp_pressure.c:86-96 | Never-ready gives 65535; ready on poll 100 gives 0. |
| DataReady.TimedOut | components/temp_pressure/src/temp_pressure.c:86-96 | The intended timeout holds exactly when DRDY asserts on none of the polls. |
| DataReady.WaitBounded | components/temp_pressure/src/temp_pressure.c:86-90 | The wait sleeps at most 100 times, and unless it times out DRDY was asserted on the last poll. |
| DataReady.WaitFails | components/accel/src/accel.c:187-199 | The firmware's `timeout == 0` test gives up exactly when DRDY first asserts on poll 100; the intended test gives up exactly when DRDY never asserts. |
| DataReady.WaitTestsDisagree | components/temp_pressure/src/temp_pressure.c:86-96 | The two tests disagree exactly when DRDY never asserts or first asserts on poll 100. |
| Accel.ConfigBlock | components/accel/src/accel.c:72-84 | The CTRL1 block starts 0x78, 0x04. |
| Accel.ConfigBlockDeterminesOptions | components/accel/src/accel.c:72-84 | The block's last two bytes determine the trigger and DRDY build options. |
| Accel.Scale | components/accel/src/accel.c:226-228 | The scaled value is floor(19600·raw / 2^15), within [-19600, 19599]. |
| Accel.ScaleMonotone | components/accel/src/accel.c:226-228 | A larger reading never scales smaller. |
| Accel.ScaleExtremes | components/accel/src/accel.c:226-228 | 0x7FFF scales to 19599, -32768 to -19600, and 0 to 0. |
| Accel.ScaleNeverMissing | components/accel/src/accel.c:209-228 | No reading scales to the 0x8000 sentinel. |
| Accel.DecodeAxes | components/accel/src/accel.c:221-223 | Each axis is the little-endian int16 of its byte pair. |
| Accel.DecodeAxesRoundTrip | components/accel/src/accel.c:221-223 | Decoding three stored int16 values gives them back. |
| Accel.AccelRead | components/accel/src/accel.c:182-239 | Under either timeout test, success exactly when the wait does not fail, the device is ready and the read succeeds. A failed wait or a device not ready leaves the output alone. A failed read leaves all three axes at 0x8000. |
| Accel.AccelReadScales | components/accel/src/accel.c:213-230 | Under either timeout test, when the wait does not fail, a read of stored raw values reports their scaled values. |
| Accel.AccelReadNeverReady | components/accel/src/accel.c:187-199 | DRDY never asserting: the firmware goes on and succeeds whenever the bus read does; the intended test reports an error and leaves the output alone. |
| Accel.AccelReadLastPoll | components/accel/src/accel.c:187-199 | DRDY first asserting on poll 100: the firmware reports an error and leaves the output alone; the intended test reads. |
| TempPressure.PressureAsWritten | components/temp_pressure/src/temp_pressure.c:116-126 | With the top union byte zero and a positive raw reading, the pressure is raw·10/4096, within [0, 20479]. |
| TempPressure.Pressure | components/temp_pressure/src/temp_pressure.c:116-126 | With the union zeroed, a positive raw reading gives raw·10/4096, within [0, 20479]. |
| TempPressure.PressureMonotone | components/temp_pressure/src/temp_pressure.c:126 | A higher raw pressure never converts lower. |
| TempPressure.PressureAsWrittenAgrees | components/temp_pressure/src/temp_pressure.c:116-126 | The as-written conversion with a zero top byte is the corrected one. |
| TempPressure.PressureAsWrittenStrayByte | components/temp_pressure/src/temp_pressure.c:116-126 | A raw 0 with a stray top byte of 1 gives -24576 instead of 0. |
| TempPressure.Temperature | components/temp_pressure/src/temp_pressure.c:127 | The temperature is the little-endian int16 of bytes 3 and 4, unscaled. |
| TempPressure.TemperatureRoundTrip | components/temp_pressure/src/temp_pressure.c:127 | Decoding the two stored bytes of a temperature gives it back. |
| TempPressure.TempPressureRead | components/temp_pressure/src/temp_pressure.c:83-139 | Under either timeout test, success exactly when the wait does not fail, the device is ready and the read succeeds. A failed wait or a device not ready leaves the output alone. A failed read leaves both values at 0x8000. On success the temperature is decoded; the pressure goes through the union whose unwritten high byte is a parameter, and is raw·10/4096 when that byte is 0 and the raw reading positive. |
| TempPressure.TempPressureReadStrayTop | components/temp_pressure/src/temp_pressure.c:116-126 | A successful read of pressure bytes 0, 0, 0 with a stray 1 in the union's high byte reports a pressure of -24576. |
| TempPressure.TempPressureReadNeverReady | components/temp_pressure/src/temp_pressure.c:86-96 | DRDY never asserting: the firmware goes on and succeeds whenever the bus read does; the intended test reports an error. |
| TempPressure.TempPressureReadLastPoll | components/temp_pressure/src/temp_pressure.c:86-96 | DRDY first asserting on poll 100: the firmware reports an error and leaves the outputs alone; the intended test reads. |
| Payload.FrameLayoutTiles | components/device_config/include/device_config.h:32-40 | The company bytes, data, id, status and repeat bytes tile the 22-byte frame without gap or overlap. |
| Payload.BlockOffsetsFollowLayoutRule | components/device_config/include/app_types.h:54-64 | The block's members follow the C layout rule with no padding, and the struct is exactly 16 bytes. |
| Payload.BlockBytesSlot | components/device_config/include/app_types.h:71-74 | Each member's bytes sit at its offset in the byte view. |
| Payload.FieldsOfBytes | components/device_config/include/app_types.h:71-74 | A struct read back through the byte view is the struct. |
| Payload.BytesOfFields | components/device_config/include/app_types.h:71-74 | Every 16 bytes are the byte view of the struct they read as. |
| Payload.ParseBuild | components/device_config/include/device_config.h:32-40 | Parsing a built frame gives back every part. |
| Payload.BuildParse | components/device_config/include/device_config.h:32-40 | Every frame is the build of its parts. |
| Payload.EncryptData | main/src/app_encrypt.c:23-41 | Only the status byte of the frame changes. Status clear holds exactly on cipher failure, when the output is the clear block; status encrypted holds exactly on success, when the output is the cipher's. |
| Payload.StatusClearMeansReadable | main/src/app_encrypt.c:29-37 | Whenever the status says clear, the data bytes are the block itself; otherwise the status says encrypted. |
| ManufData.MeasuredAxes | main/src/app_sensors.c:28-40 | Under the sensors' timeout test (the firmware's or the intended one), a failed accelerometer read reports all three axes missing, and a successful one none. |
| ManufData.MeasureSensorData | main/src/app_sensors.c:17-43 | Only the three accelerometer members of the block change, and they hold the measured axes. |
| ManufData.MeasureReportsFailure | main/src/app_sensors.c:28-40 | After a measurement the block has either three decoded axes or three missing ones, never a stale axis. |
| ManufData.TypeBytes | main/src/app_manuf_data.c:73-93 | Types 0-2 get the axes, type 3 the polarity and 9 name bytes, type 4 10 name bytes. Other types leave bytes 4..13 alone, and only bytes 4..13 change. |
| ManufData.CounterBytesOf | main/src/app_manuf_data.c:100-102 | The three counter bytes are the counter's low 24 bits, little-endian. |
| ManufData.StampBlock | main/src/app_manuf_data.c:99-103 | Byte 0 is the type, bytes 1..3 the counter's low 24 bits and bytes 14..15 the serial's low 16 bits. Bytes 4..13 are kept. |
| ManufData.SealFrame | main/src/app_manuf_data.c:107-115 | The parsed frame has the same company bytes, the sealed block, the serial's low 16 bits, the status and a repeat counter of 1. |
| ManufData.BuildBlock | main/src/app_manuf_data.c:73-103 | The block carries the type, the raised counter's low 24 bits and the serial's low 16 bits. |
| ManufData.UpdateManufactureData | main/src/app_manuf_data.c:68-116 | The RAM counter rises by 1 modulo 2^32 and nothing else in RAM changes. The FRAM counter gets the new value when its write succeeds, and nothing else in the FRAM changes. The repeat counter is 1, and the frame is as SealFrame states. |
| ManufData.UpdateTypeDependent | main/src/app_manuf_data.c:73-93 | Block bytes 4..13 after a call, by type. |
| ManufData.FrameIdIsBlockId | main/src/app_manuf_data.c:103-115 | The frame's id bytes equal the block's id member. |
| ManufData.ReceiverReadsClearFrame | main/src/app_manuf_data.c:96-115 | A clear frame shows the type, the counter's low 24 bits and an id equal to the one outside the block. |
| ManufData.TempPressureNeverReported | main/src/app_manuf_data.c:38-40 | For the sensor types, the temperature and pressure members stay zero through every event, contrary to the description. |
| EventCycle.Stop | main/main.c:64-76 | A burst ends by rescheduling exactly when sleep_between_events is non-zero, and by burning otherwise. |
| EventCycle.Tick | main/main.c:52-77 | The uint8 counter rises, wrapping at 256. A packet is submitted exactly when the counter does not exceed the maximum, and then frame[21] holds it. Otherwise the counter resets to 1 and the burst stops. Only frame[21] ever changes. |
| EventCycle.RunTicks | main/main.c:52-77 | A run of ticks changes only frame[21]. |
| EventCycle.Stamps | main/main.c:59-61 | The stamps lo .. hi in order. |
| EventCycle.BurstStops | main/main.c:52-77 | With a maximum of at most 254, a burst from counter c stamps c+1 .. max and stops with the counter at 1 (proved by induction). |
| EventCycle.BurstNeverStops | main/main.c:54-59 | With a maximum of 255 or more every tick submits, the counter wraps, and the timer never stops (proved by induction). |
| EventCycle.CounterWraps | main/main.c:54-59 | From 254 with no effective maximum, the stamps are 255 then 0. |
| EventCycle.Event | main/main.c:183-198 | A boot-style event builds the payload once and submits repeat counter 1 at once. Only frame[21] moves afterwards. |
| EventCycle.RescheduledEventAsWritten | main/main.c:85-90 | A rescheduled event rebuilds the payload and starts the timer. |
| EventCycle.EventSendsMax | main/main.c:183-198 | For 1 ≤ max ≤ 254 exactly max packets, stamped 1 .. max, go out. The event counter rises by exactly one. |
| EventCycle.RescheduledEventSendsOneFewer | main/main.c:52-90 | As written, a rescheduled event sends max - 1 packets stamped 2 .. max, and none when max is 1. |
| EventCycle.EventNeverEnds | main/main.c:54-59 | With a maximum of 255 or more an event never ends. |
| EventCycle.MainBoot | main/main.c:98-199 | Under either RAM layout of the dump, the timer is started exactly outside configuration mode. |
| EventCycle.ConfigModeStartsNothing | main/main.c:105-129 | Under either layout, configuration mode never starts the timer, the radio or a payload build. |
| EventCycle.BootWithRecord | main/main.c:160-198 | Under either layout, a FRAM holding a record's image supplies its key, the measured polarity is kept, RAM holds what the layout loads with the stored counter plus one, and one packet with counter 1 goes out. With the firmware's struct the two polarity counters come from bytes two past their fields. |
| EventCycle.BootWithoutRecord | main/main.c:172-198 | Under either layout, a failed load burns, keeps the old key and polarity 0, yet the payload is still built, the timer started and one packet with counter 1 goes out. |
| EventCycle.BootWithoutRecordCounter | main/main.c:172-183 | Under either layout, after a failed load the counter restarts at 0 before the payload update raises it. So RAM holds 1, and a counter write that goes through overwrites the stored count with 1. |
| MachineInt.LeValueOfBytes | components/device_config/include/app_types.h:14-47 | Storing x in n little-endian bytes and reading them back gives x modulo 256^n. |
| MachineInt.LeBytesOfValue | components/device_config/include/app_types.h:14-47 | Reading n bytes and storing the value back reproduces them. |
| MachineInt.ShiftedByte | main/src/app_cli.c:42-45 | A signed value shifted right by 8k and narrowed to a byte is byte k of its two's-complement store. |

## Left out

- Logging, hex dumps and the text GET and DUMP print. GET's printout is reduced to the value it shows.
- UART setup (`init_uart`, `disable_uart`), shell registration and the USB DTR wait in `init_command_line_interface`. Only the handlers' record building is modelled.
- The I2C plumbing: each transaction is a ready flag plus a success flag. A failed write stores nothing and a failed read changes nothing, although real hardware may store or return part of the bytes.
- The radio. Submitting an advertisement is recorded as the repeat counter the frame carried.
- AES itself: the cipher is a parameter.
- GPIO and comparators: the trigger and debug pins, `accel_trigger_enable`, the accelerometer trigger-pin clear on every exit path, and `burn_the_energy` (modelled as a flag). The mode and polarity comparators are inputs.
- `app_accel_whoami`, the temperature/pressure interrupt and trigger configuration writes, and the float `USE_ZEPHYR_SENSOR` path.
- The DRDY source is abstracted: `app_accel_drdy`'s register or pin read, including its error return, is the `busy` oracle.
- Timer periods, `k_sleep` delays and the work queues: ticks and events are discrete steps.
- EventCycle.RunTicks: a `fuel` count bounds the ticks looked at, so a run longer than the fuel is not described.
- The dead `#else` branch of `encrypt_data`. `ENCRYPT` is defined, so it is never compiled.
- ConfigCommands.SetValue: bytes from the fifth on are taken to add nothing, because C leaves shifts of 32 or more undefined.
- ConfigCommands.GetValue: states only when a value is shown and that it is below 2^32, not the printed text.
- ConfigTable.Info: the source has no bound constants for VBULK_THRESH. The per-field entry here accepts any byte and defaults to 0.
- ConfigTable.Preset: POLARITY_COUNTERS_MIN_VALUE, _MAX_VALUE and _DEFAULT_VALUE are defined in no file of this model. They are taken to be 0, 0xFFFFFFFF and 0.
- ConfigCommands.Entry: an index outside FRAM_INFO reads whatever memory follows, so its entry is a parameter (`stray`).
- Cli.NumericSetterAsWritten: atoi is undefined in C when the number does not fit an int. The model constrains atoi's result only when it does.
- Cli.KeySetter: requires exactly sixteen arguments; with fewer the handler reads past `argv`.
- Cli.NameSetter: requires a name of at most 509 bytes; a longer one overflows the record's data buffer.
- SelfTest.RunTest: TEST 1 runs the two-byte `FramTest` under every build. The firmware's one-byte test depends on where the compiler places its three locals, which the source does not fix, so it is modelled apart in `SelfTest.FramTestAsWritten` with the placement as a parameter.
- SelfTest.FramTestAsWritten: a read or write that fails part-way is not modelled; each transfer moves both bytes or none, and only the stack bytes next to the three locals are tracked.
- TempPressure.PressureAsWritten: the product by 10 is wrapped to 32 bits, where C leaves signed overflow undefined.
- The multi-event fold over several events is not modelled; each event is one call of `EventCycle.Event` or `EventCycle.RescheduledEventAsWritten`.
- `i2c_write_bytes`'s 64-byte staging buffer. Every transfer here is at most 56 bytes.

## Findings

| source | as written | input that shows it | evidently intended | confidence | as-written member | corrected member |
|---|---|---|---|---|---|---|
| components/fram/src/fram.c:235-243 | `app_fram_write_field` logs a failed transfer but returns FRAM_SUCCESS | device ready, transfer fails: FRAM unchanged, Success reported | report FRAM_ERROR when the transfer fails | high; not executed | FramStore.WriteFieldAsWritten, FramStore.WriteFieldAsWrittenMasksFailure | FramStore.WriteField, FramStore.ReadAfterWrite |
| components/accel/src/accel.c:187-199 | the DRDY counter is post-decremented, then tested for 0 | DRDY never asserts: counter 65535, no timeout reported, read goes ahead. DRDY asserts on poll 100: counter 0, timeout reported | time out exactly when DRDY never asserts (same loop in temp_pressure.c:86-96) | high; not executed | DataReady.WaitAsWritten, DataReady.TimeoutAsWrittenMisfires, Accel.AccelReadNeverReady, Accel.AccelReadLastPoll | DataReady.WaitFails, DataReady.WaitBounded |
| components/fram/include/fram.h:45-62 | `dump_fram` reads 56 FRAM bytes into the padded `fram_data_t`, whose counters sit at 48/52 | FRAM bytes 46..49 = 1,2,3,4 and 50..55 = 0: the negative counter reads 0x0403, not 0x04030201 | each member is read from its field's address | high; not executed | ConfigCommands.ResetPositiveCounterAsBuilt, FramRecord.StructImageCounterExample | ConfigCommands.DumpOfImage, ConfigCommands.ProcessReset |
| components/config_commands/src/config_commands.c:108-124 | `FRAM_INFO` has 14 initialisers for 15 slots. VBULK_THRESH gets the 4-byte counter entry and POS_EVT_CTR is zero-filled | SET field 14 to 5 is refused; SET field 12 to 256 stores 0 | one entry per field, in field order | high; not executed | ConfigCommands.SetPositiveCounterAsWritten, ConfigCommands.SetThresholdExample | ConfigCommands.SetPositiveCounter, ConfigCommands.SetStoresNumber |
| main/main.c:85-90 | `update_frame_work_fn` rebuilds the payload and starts the timer but submits no packet at once | max = 1 on a rescheduled event: no packet is sent | send max packets per event, as the boot path does | high; not executed | EventCycle.RescheduledEventAsWritten, EventCycle.RescheduledEventSendsOneFewer | EventCycle.Event, EventCycle.EventSendsMax |
| main/src/app_tests.c:28-45 | the FRAM test reads and writes the 2-byte EV_MAX field through 1-byte locals, so every transfer also reaches the byte after its local: the two reads overflow their buffers (undefined behaviour in C) | the read-back buffer placed just after the saved buffer, field 4 = 254, every transfer succeeding: the read-back's first byte, 33, is sent as the restored high byte, so the test passes and leaves 8702 | 2-byte buffers, so field 4 is restored | high; not executed | SelfTest.FramTestAsWritten, SelfTest.FramTestAsWrittenExample, SelfTest.FramTestAsWrittenClobbersSaved | SelfTest.FramTest, SelfTest.FramTestRestores |
| main/src/app_cli.c:72-95 | numeric setters take the bytes from atoi and the bound check from strtoull | `s 1 3000000000`: admitted, but atoi cannot represent it; a saturating atoi stores 2147483647 | the bytes of the value that was bound-checked | medium (atoi's overflow result depends on the C library); not executed | Cli.NumericSetterAsWritten, Cli.SerialAboveIntMax | Cli.NumericSetter, Cli.SetterRoundTripCorrected |
| components/temp_pressure/src/temp_pressure.c:116-126 | only the low three bytes of the `i32_u8_t` union are written; the top byte is whatever the stack held | raw 0 with a stray top byte of 1: pressure -24576 instead of 0 | zero the union first | high; not executed | TempPressure.PressureAsWritten, TempPressure.PressureAsWrittenStrayByte, TempPressure.TempPressureReadStrayTop | TempPressure.Pressure, TempPressure.PressureMonotone |

The block's description (main/src/app_manuf_data.c:38-40) says the sensor
types carry temperature and pressure in bytes 10..13, but
`measure_sensor_data` never writes them and `app_temp_pressure_read` is not
called when the payload is built. `ManufData.TempPressureNeverReported` states
what the code does.
