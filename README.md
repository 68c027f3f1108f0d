# homebridge-bthome decoders in Dafny

This project models the two byte-level decoders of the homebridge-bthome
plugin and proves properties of them.

- **BTHome device** (`src/bthome/index.ts`, module `BTHome` in
  `bthome.dfy`). The class `BTHomeDevice` holds a device's MAC, its optional
  AES key and the last reading it decoded. `update` decodes one
  service-data payload:
  - Bit 0 of the first byte selects the encrypted path.
  - An encrypted payload goes through the pre-processing that
    `decryptPayload` does: the key check, then the length check (at least
    10 bytes), then the split into ciphertext, 32-bit little-endian
    counter and 4-byte tag, then the replay rule, then the 13-byte
    AES-128-CCM nonce.
  - The plaintext is walked as type-prefixed fixed-width object records and
    builds a sparse reading with the fields `id`, `counter`,
    `temperature`, `humidity` and `battery`.
  - When decoding succeeds, the reading replaces the stored one and is
    emitted once to the listeners.
- **Shelly manufacturer data** (`src/bluetooth/shelly.ts`, module
  `Shelly` in `shelly.dfy`). A block walk starts at offset 2. It skips
  blocks 0x01 (3 bytes) and 0x0A (7 bytes). It takes the model from block
  0x0B, whose 16-bit code goes through a fixed lookup table.
- **Buffer primitives** (module `Buffers` in `buffers.dfy`). These are the
  little-endian integer decodings of Node's `Buffer.readXxx`, their
  encoders with round-trip lemmas, and the range check those reads make.

Both walkers have a loop, so each is a `method` with a `while` loop. Each
method is proved equal to a recursive specification function
(`BTHome.WalkObjects`, `Shelly.ScanBlocks`). The properties are then proved
about those functions against an independent reference: sequences of
well-formed records (`SensorObject`, `Block`) with an encoder
(`EncodeObjects`, `EncodeBlocks`). Lemmas cover both directions:
- encoded records decode to the result of applying them;
- a successful walk consumed exactly such an encoding (for Shelly, possibly
  followed by one skip block that the end of the buffer cuts off);
- an unknown type stops the walk;
- a truncated record throws.

How the source's behaviours are represented:
- **Non-termination.** In both source loops, a type byte that no `case`
  matches leaves the offset where it is, so the loop never ends. The model
  returns `Stuck(code)` for this; it does not invent an error or a skip.
- **Read past the end.** A `Buffer` read past the end throws a
  RangeError. The model returns `OutOfRange` (in BTHome this is
  `Thrown(OutOfRange)`).
- **The cipher.** The AES-128-CCM decipher is the `Cipher` function value
  that the device gets at construction.
- **Hex decoding.** `Buffer.from(_, 'hex')` is the `hex` function value.
- **Listeners.** What is emitted to them is the ghost log `emitted`.

The code handles less than the BTHome v2 format defines. It has none of
the following, so the model has none either:
- suppressing duplicates by `id`;
- an "unsupported object type" error;
- button, illuminance and motion objects;
- dispatch on the company identifier;
- any counter wrap-around handling beyond one rule: once the stored counter
  is 4294967295, every new counter is accepted (`BTHome.ReplayRule`).

The code and the BTHome v2 object table disagree on type 0x58. The table
gives a signed byte with factor 0.35, so the value should be raw * 0.35. The
code computes `raw * 100 / 35`, which is raw / 0.35, so raw 35 gives 100
degrees instead of 12.25. The walker keeps the code's formula, because it
models the code as written. `BTHome.DecodeObjectIntended` is the table's
definition, and `BTHome.Temperature58Discrepancy` proves that the two
differ on every raw value except 0 (see "## Findings").

## Model

| member | source | states |
|---|---|---|
| `Buffers.ReadU8` | src/bthome/index.ts:39 | a one-byte read succeeds exactly when the offset is inside the buffer, and yields that byte |
| `Buffers.ReadS16LE` | src/bthome/index.ts:119 | a signed 16-bit read succeeds exactly when both bytes are inside the buffer, and yields their two's-complement value |
| `Buffers.ReadU16LE` | src/bluetooth/shelly.ts:37 | an unsigned 16-bit read succeeds exactly when both bytes are inside the buffer, and yields their little-endian value |
| `Buffers.ReadS8` | src/bthome/index.ts:127 | a signed 8-bit read succeeds exactly when the offset is inside the buffer, and yields the byte's two's-complement value |
| `Buffers.EncodeOfS8` | src/bthome/index.ts:131 | any byte is the encoding of its signed 8-bit value, so with `Buffers.S8OfEncode` the two are inverse |
| `Buffers.U32LE` | src/bthome/index.ts:70 | a 32-bit little-endian read is always below 2^32 |
| `Buffers.S16LEOfEncode` | src/bthome/index.ts:119 | every signed 16-bit value is read back from its little-endian bytes |
| `Buffers.U32LEOfEncode` | src/bthome/index.ts:70 | every 32-bit counter is read back from its 4 little-endian bytes |
| `Buffers.EncodeOfU32LE` | src/bthome/index.ts:70 | any 4 counter bytes are exactly the encoding of the value read from them |
| `BTHome.ObjectWidth` | src/bthome/index.ts:104-144 | exactly the types 0x00, 0x01, 0x02, 0x03, 0x2E, 0x45, 0x57, 0x58 are known; 0x00, 0x01, 0x57, 0x58 and 0x2E records are exactly the 2-byte ones, and 0x02, 0x45 and 0x03 records exactly the 3-byte ones |
| `BTHome.DecodeObject` | src/bthome/index.ts:104-143 | type 0x00 sets exactly the id, 0x01 exactly the battery, 0x02, 0x45, 0x58 and 0x57 exactly the temperature, 0x03 and 0x2E exactly the humidity; id and battery are byte values |
| `BTHome.Store` | src/bthome/index.ts:107-141 | a record overwrites its own field with its value and keeps every other field and the counter |
| `BTHome.WalkObjects` | src/bthome/index.ts:98-148 | a walk never sets the counter, throws only the range error, and gets stuck only on an unknown type |
| `BTHome.DecodeSensorData` | src/bthome/index.ts:98-148 | the loop returns exactly the outcome of the walk from offset 0 with an empty reading |
| `BTHome.LastReadingUnset` | src/bthome/index.ts:99 | a field that no record sets keeps its starting value, so it is absent in a decoded reading |
| `BTHome.ApplyAllFields` | src/bthome/index.ts:103-145 | after the records are applied, each field holds the value of the last record that sets it, and the counter is unchanged |
| `BTHome.WalkEncoded` | src/bthome/index.ts:103-145 | walking well-formed records followed by any tail is walking the tail from the result of those records |
| `BTHome.DecodeEncodedObjects` | src/bthome/index.ts:98-148 | well-formed records decode without error; each field comes from the last record that sets it, and there is no counter |
| `BTHome.WalkDoneParses` | src/bthome/index.ts:103-147 | every walk that ends normally consumed exactly an encoding of well-formed records, whose application is the result |
| `BTHome.UnknownObjectStuck` | src/bthome/index.ts:103-144 | an unknown type byte after well-formed records is where the loop stops making progress |
| `BTHome.TruncatedObject` | src/bthome/index.ts:107-141 | a known record whose value bytes run past the end throws the range error |
| `BTHome.ObjectValues` | src/bthome/index.ts:105-143 | the value of each record type: id and battery as the byte, 0x02 as s16/100, 0x45 as s16/10, 0x58 as s8*100/35, 0x57 as s8, 0x03 as u16/100, 0x2E as the byte |
| `BTHome.DecodeObjectIntended` | src/bthome/index.ts:126-129 | the intended type 0x58 value, from which dividing by the factor 0.35 gives back the raw signed byte; every other type decodes as the walker does |
| `BTHome.Temperature58Discrepancy` | src/bthome/index.ts:126-129 | as written, multiplying the 0x58 value by 0.35 gives back the raw byte, the reverse of the table; the written and the intended value agree exactly when the raw byte is 0; raw 35 gives 100 against 12.25 |
| `BTHome.ObjectExamples` | src/bthome/index.ts:112-129 | bytes 02 E4 00 give 2.28 degrees, 01 5A give battery 90, 58 23 give 100 degrees, and a trailing FF gets stuck |
| `BTHome.IsEncrypted` | src/bthome/index.ts:40 | a payload is encrypted exactly when bit 0 of the flags byte is set |
| `BTHome.PreviousCounter` | src/bthome/index.ts:69 | the baseline is never 0; it is -1 unless the stored reading has a counter, and a stored non-zero counter is the baseline |
| `BTHome.IsReplay` | src/bthome/index.ts:72 | a replay always has a counter below the baseline; a baseline of 4294967295 or more admits every counter; below it, every smaller counter is a replay |
| `BTHome.ConstantValues` | src/bthome/index.ts:12-15 | the little-endian UUID is D2 FC; the counter limit 4294967295 is the value of four FF bytes and no 4-byte counter exceeds it |
| `BTHome.ReplayRule` | src/bthome/index.ts:69-74 | a payload is a replay exactly when a counter is stored, it is below 4294967295, and the new counter is strictly smaller |
| `BTHome.Nonce` | src/bthome/index.ts:76 | the nonce starts with the MAC and ends with the counter bytes, with three bytes between them |
| `BTHome.NonceLayout` | src/bthome/index.ts:76 | the nonce is 13 bytes: the 6 MAC bytes, D2 FC, the flags byte, the 4 counter bytes as they stand in the payload |
| `BTHome.DecryptPayload` | src/bthome/index.ts:56-96 | a missing key fails first, whatever the length; then a payload under 10 bytes fails; a replay fails exactly under the replay rule; the decryption error comes exactly when those checks pass and the cipher refuses the ciphertext, nonce and tag; on success the counter is the little-endian value of bytes n-8 to n-4 |
| `BTHome.DecryptEncryptedPayload` | src/bthome/index.ts:65-86 | splitting a payload laid out as flags, ciphertext, counter and tag hands the cipher exactly that ciphertext and tag and a nonce with that counter, and returns that counter |
| `BTHome.PayloadOutcome` | src/bthome/index.ts:38-54 | an empty payload fails at the byte-0 read; an encrypted payload with no key fails with the missing-key error; a plaintext reading has no counter; an encrypted reading carries the payload's counter (its other fields: `BTHome.EncryptedPayloadDecodes`) |
| `BTHome.EncryptedPayloadDecodes` | src/bthome/index.ts:44-48 | an encrypted payload that passes the key, length and replay checks fails exactly when the cipher refuses its ciphertext, nonce and tag; otherwise it is the walk of the plaintext the cipher returns, with the payload's counter added |
| `BTHome.PlaintextIgnoresState` | src/bthome/index.ts:49-51 | a plaintext payload decodes from byte 1 on, whatever the key, the stored reading and the cipher |
| `BTHome.ReplayAfterAccepted` | src/bthome/index.ts:69-74 | after an encrypted reading with counter c1 is stored, an encrypted payload with counter c2 is rejected as a replay exactly when c2 < c1 < 4294967295 |
| `BTHome.PlaintextClearsBaseline` | src/bthome/index.ts:69 | after a plaintext reading is stored, no payload is rejected as a replay |
| `BTHome.StripColons` | src/bthome/index.ts:25 | the MAC text loses every colon and keeps every other character, each as often as before |
| `BTHome.StripColonsWithoutColons` | src/bthome/index.ts:25 | a MAC text without colons is left unchanged |
| `BTHome.StripColonsAppend` | src/bthome/index.ts:25 | stripping a concatenation is concatenating the stripped parts, so the kept characters stay in order |
| `BTHome.StripColonsOne` | src/bthome/index.ts:25 | a single colon is removed and any other single character is kept |
| `BTHome.StripColonsExample` | src/bthome/index.ts:25 | "aa:bb" becomes "aabb" |
| `BTHome.ConfiguredKey` | src/bthome/index.ts:26 | a key is configured exactly when the key text is present and non-empty, and it is the hex decoding of that text |
| `BTHome.BTHomeDevice.constructor` | src/bthome/index.ts:24-27 | the MAC is the hex decoding of the colon-free MAC text, the key follows the key rule, and nothing is stored or emitted yet |
| `BTHome.BTHomeDevice.DecodePayload` | src/bthome/index.ts:38-54 | the method returns exactly the payload outcome for the device's MAC, key, cipher and stored reading |
| `BTHome.BTHomeDevice.Update` | src/bthome/index.ts:29-32 | on success the reading replaces the stored one and is emitted exactly once; on any failure the stored reading and the emissions are unchanged; the stored reading is always the last one emitted |
| `Shelly.DecodeModelName` | src/bluetooth/shelly.ts:3-20 | a model name exists exactly for codes 1, 2, 3, 5, 6, 7 and 8, so code 4 and every other code have none |
| `Shelly.ModelNamesDistinct` | src/bluetooth/shelly.ts:3-20 | no two codes share a model name |
| `Shelly.ScanBlocks` | src/bluetooth/shelly.ts:26-40 | the walk never changes the manufacturer and gets stuck only on a block type other than 0x01, 0x0A and 0x0B |
| `Shelly.ShellyData` | src/bluetooth/shelly.ts:22-44 | a decoded result always has manufacturer "Shelly" |
| `Shelly.DecodeShellyManufacturerData` | src/bluetooth/shelly.ts:22-44 | the loop returns exactly the outcome of the walk from offset 2 |
| `Shelly.LastModelWithoutModelBlock` | src/bluetooth/shelly.ts:36-38 | with no 0x0B block the model keeps its starting value, so it stays absent |
| `Shelly.ScanEncoded` | src/bluetooth/shelly.ts:29-40 | blocks 0x01 and 0x0A change nothing, and the last 0x0B block sets the model, even to absent |
| `Shelly.ParseScan` | src/bluetooth/shelly.ts:26-41 | a walk that ends normally yields the well-formed blocks it read and the cut-off skip block, if any, left after them, with the model of the last model block |
| `Shelly.ScanDoneParses` | src/bluetooth/shelly.ts:26-41 | every walk that ends normally read well-formed blocks, then nothing or one cut-off skip block, and its model is the one of the last 0x0B block |
| `Shelly.ShellyDataOfBlocks` | src/bluetooth/shelly.ts:22-44 | a two-byte header followed by well-formed blocks decodes to "Shelly" with the model of the last 0x0B block |
| `Shelly.ModelBlockExample` | src/bluetooth/shelly.ts:36-38 | bytes A9 0B 0B 03 00 decode to Shelly model SBHT-003C |
| `Shelly.HeaderIgnored` | src/bluetooth/shelly.ts:25 | bytes 0 and 1 never affect the result |
| `Shelly.SkipOvershoot` | src/bluetooth/shelly.ts:26-35 | a skip block cut off by the end of the buffer ends the walk normally, with no error |
| `Shelly.TruncatedModelBlock` | src/bluetooth/shelly.ts:37 | a 0x0B block followed by fewer than 2 bytes throws the range error |
| `Shelly.UnknownBlockStuck` | src/bluetooth/shelly.ts:29-40 | an unknown block type after well-formed blocks is where the loop stops making progress |

## Findings

| source | as written | input that shows it | evidently intended | confidence | as-written member | corrected member |
|---|---|---|---|---|---|---|
| src/bthome/index.ts:127 | type 0x58 temperature is `readInt8 * 100 / 35`, the raw value divided by 0.35 | record 58 23 (raw 35) gives 100 degrees | raw * 0.35, the factor of the BTHome v2 object table, so 12.25 degrees | high; not executed | `BTHome.Temperature58Discrepancy` | `BTHome.DecodeObjectIntended` |

The walker (`BTHome.WalkObjects`, `BTHome.DecodeSensorData`) keeps the
as-written formula, so it matches the code. The intended value is
`BTHome.DecodeObjectIntended`.

## Left out

- The AES-128-CCM decipher (src/bthome/index.ts:78-95) is a call into the crypto library. It is the `Cipher` parameter of the device, and its failure becomes `DecryptionFailed`. Every property holds for every cipher, so nothing about authentication or the plaintext it yields is proved.
- `Buffer.from(_, 'hex')` for the MAC and the key (src/bthome/index.ts:25-26) is the `hex` parameter. Its truncation rules for odd or invalid hex are not modelled.
- Listener registration through `EventEmitter` (src/bthome/index.ts:20, 34-36) is not modelled. An emission is an append to the ghost log `emitted`, and there is no concurrency.
- The scalings `/100`, `/10` and `*100/35` use exact `real` arithmetic. IEEE-754 rounding of JavaScript numbers is not modelled.
- Error messages are not modelled, only the kind of error. This includes the library's message that replaces the text of `DecryptionFailed`.
- `BTHome.BTHomeDevice.Update`: in the source an unknown object type makes the call run forever, so no state after it exists. The model returns `Stuck(code)` and leaves the state unchanged.
- `BTHome.DecryptPayload`: its ensures state the key, length, replay and decryption errors and the returned counter, but not the plaintext. The plaintext is whatever the cipher returns. `BTHome.DecryptEncryptedPayload` and `BTHome.EncryptedPayloadDecodes` state the exact call and what becomes of its result.
- The walker does not use `BTHome.DecodeObjectIntended`. It models the code, which has the type 0x58 scaling of "## Findings".
- src/platformAccessory.ts, src/platform.ts, src/bluetooth/index.ts and src/util/errors.ts are not part of this model. They cover the Homebridge services, the platform lifecycle, BLE scanning (asynchronous I/O) and error wrapping.
- The type declarations in src/bthome/types.ts and src/bluetooth/types.ts appear only as datatypes. `ManufacturerData` is not declared in the shown types; it is taken as a manufacturer string and an optional model, as src/bluetooth/shelly.ts:23 and 37 use it.
