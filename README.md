# pysbf2 core in Dafny

pysbf2 reads and writes the Septentrio Binary Format (SBF) of GNSS receivers.
An SBF block has this layout:

- the sync bytes `$@`;
- a 16-bit CRC-CCITT checksum;
- a 16-bit block id, made of a 13-bit number and a 3-bit revision;
- a 16-bit length;
- the payload.

The project models the three pieces that do the work:

- **The field helpers** (`sbfhelpers.py`). These cover the checksum and its 2-byte form, splitting the id, the attribute type tags (`U002`, `I004`, `X001`, `CH`, ...), the little-endian integer and byte conversions, nominal values, the padding generator, and the name-to-id lookup.
- **The message class `SBFMessage`** (`sbfmessage.py`). It walks a block schema of scalars, repeating groups and bitfields. The walk runs in one of two modes:
  - *build* mode encodes keyword values into a growing payload;
  - *parse* mode decodes a given payload into attributes.

  Inside groups, attribute names get `_NN` suffixes. The class then derives the length and the checksum, and refuses later updates. `serialize` writes the block.
- **The stream reader `SBFReader`** (`sbfreader.py`). It scans a byte stream for `$`. It frames SBF blocks by their length field and NMEA sentences by their line end. It applies the protocol filter and the ignore/log/raise error policy. Its static `parse` checks the checksum and builds a message.

## Files

| file | module | contents |
|---|---|---|
| `core.dfy` | `SbfCore` | bytes, results and the library's exceptions as an `Error` datatype, attribute values, the schema datatype (`Entry`), keyword arguments, the lookup tables, the protocol constants |
| `crc.dfy` | `SbfCrc` | `calc_crc`: the checksum on Python integers and the looping method, with bound, fold and error-detection lemmas |
| `helpers.dfy` | `SbfHelpers` | the other helpers and their round trips |
| `message.dfy` | `SbfMessage` | the attribute walk as functions, then the class `SBFMessage` whose methods update its fields and are proved to follow those functions |
| `message_props.dfy` | `SbfMessageProps` | naming, monotonicity, the bitfield arithmetic, the build-then-parse round trip of the walk and the constructor, the `serialize` layout |
| `reader.dfy` | `SbfReader` | the stream as a byte sequence and a position, the loop as functions, then the class `SBFReader` whose `read` loop is proved to follow them |
| `reader_props.dfy` | `SbfReaderProps` | skipping, framing, error policy, checksum checking, and how `parse` and the reader meet `serialize` |

The schema tables `SBF_MSGIDS` and `SBF_BLOCKS` are data. They are an input (`Tables`): the id table is a list of `(key, name)` pairs in dictionary order, and the schemas are a map from name to entry list. NMEA parsing lives in another library. It is represented by a set of NMEA headers and a predicate saying which sentences the NMEA parser accepts.

## Two length conventions

`_do_len_checksum` stores `len(payload)` in the length field (`sbfmessage.py:377`). `_parse_sbf` takes the field to include the 8 header bytes and reads `length - 8` payload bytes (`sbfreader.py:230`). These conventions interact as follows:

- `SBFReader.parse(m.serialize())` is a true round trip (`ParseSerialized`).
- A serialized block fed through the stream reader is framed 8 bytes short (`SerializedBlockMisframed`).
- Blocks from a receiver, whose length field counts the header, are framed whole (`SbfFrame`).
- A message parsed from such a block gets the payload-only length again. So its `serialize` output differs from the bytes it came from.

The model follows the code on both sides.

## Model

| member | source | states |
|---|---|---|
| SbfCrc.CalcCrc | src/pysbf2/sbfhelpers.py:55-76 | the nested shift/xor loops compute `Crc(message)`, a 16-bit value |
| SbfCrc.BitStep | src/pysbf2/sbfhelpers.py:69-75 | one shift of the 16-bit register, xoring in 0x1021 when bit 15 was set; the result is below 0x10000 |
| SbfCrc.CrcStep | src/pysbf2/sbfhelpers.py:67-75 | one message byte: xor it into the high byte, then eight shifts (its properties are the injectivity lemmas below) |
| SbfCrc.Crc | src/pysbf2/sbfhelpers.py:55-77 | the checksum as a left fold of `CrcStep` from register 0 over the bytes (bounded by `CrcBound`, computed by `CalcCrc`) |
| SbfCrc.CrcCheckValue | src/pysbf2/sbfhelpers.py:55-77 | the checksum of the single byte 0x31 (`"1"`) is 0x2672, by the eight shifts written out |
| SbfCrc.CrcBound | src/pysbf2/sbfhelpers.py:65-76 | every checksum is below 0x10000 |
| SbfCrc.CrcEmpty | src/pysbf2/sbfhelpers.py:65-66 | the empty message has checksum 0 |
| SbfCrc.CrcSnoc | src/pysbf2/sbfhelpers.py:67-75 | the checksum is a left fold: appending a byte applies one step to the old checksum |
| SbfCrc.BitStepInjective | src/pysbf2/sbfhelpers.py:69-75 | two different 16-bit registers never shift to the same register |
| SbfCrc.CrcStepInjectiveRegister | src/pysbf2/sbfhelpers.py:67-75 | two different registers stay different after the same byte |
| SbfCrc.CrcStepInjectiveByte | src/pysbf2/sbfhelpers.py:67-75 | one register gives different registers after two different bytes |
| SbfCrc.CrcDetectsByteChange | src/pysbf2/sbfhelpers.py:55-76 | two equal-length messages that differ in exactly one byte have different checksums |
| SbfHelpers.Kind | src/pysbf2/sbfhelpers.py:141-151 | the kind of a tag is its first character, or empty for an empty tag |
| SbfHelpers.ParseDecimal | src/pysbf2/sbfhelpers.py:166 | `int()` succeeds exactly on non-empty digit strings, giving a non-negative value; otherwise ValueError |
| SbfHelpers.AttSiz | src/pysbf2/sbfhelpers.py:154-166 | "CH" gives -1 and only "CH" does; any other tag gives the decimal value of characters 1 to 3 or ValueError |
| SbfHelpers.AttSizExamples | tests/test_static.py:155-161 | `P003` gives 3, `C032` gives 32, `CH` gives -1; `U004` has kind U |
| SbfHelpers.FromLittleEndian | src/pysbf2/sbfhelpers.py:193-194 | encoding `x` into `n` little-endian bytes keeps exactly `x mod 256^n` |
| SbfHelpers.LittleEndianFrom | src/pysbf2/sbfhelpers.py:220-221 | decoding bytes then encoding at the same width gives them back |
| SbfHelpers.ToBytes | src/pysbf2/sbfhelpers.py:193-194 | `to_bytes`: ValueError for a negative width, OverflowError when the value does not fit the width and signedness, otherwise exactly `n` bytes |
| SbfHelpers.FromBytes | src/pysbf2/sbfhelpers.py:220-221 | `int.from_bytes`: unsigned values lie in [0, 256^n); signed values in [-256^n/2, 256^n/2) |
| SbfHelpers.ToBytesThenFrom | src/pysbf2/sbfhelpers.py:193-194 | an integer that fits encodes, and decodes back to itself (two's complement when signed) |
| SbfHelpers.FromThenToBytes | src/pysbf2/sbfhelpers.py:220-221 | any bytes decode to an integer that encodes back to the same bytes |
| SbfHelpers.ValToBytes | src/pysbf2/sbfhelpers.py:169-201 | an unknown kind is an SBFTypeError; a value of the wrong type family is a TypeError; X and C bytes pass unchanged; C text gives its UTF-8 bytes |
| SbfHelpers.BytesToVal | src/pysbf2/sbfhelpers.py:204-230 | CH gives text; X, C and P give the bytes; E, I, L and U give the little-endian integer, signed for I; an unknown kind is an SBFTypeError |
| SbfHelpers.NomVal | src/pysbf2/sbfhelpers.py:233-256 | CH gives ""; integer kinds give 0; X, C and P give `attsiz` zero bytes; an unknown kind is an SBFTypeError |
| SbfHelpers.IntTagSize | src/pysbf2/sbfhelpers.py:154-166 | an integer tag's `attsiz` is its three-digit width |
| SbfHelpers.IntValRoundTrip | src/pysbf2/sbfhelpers.py:193-194 | an integer that fits a U or I tag encodes to exactly `attsiz` bytes, which decode back to it |
| SbfHelpers.IntBytesRoundTrip | src/pysbf2/sbfhelpers.py:220-221 | any `attsiz` bytes decode to an integer that encodes back to them |
| SbfHelpers.IntValOverflow | src/pysbf2/sbfhelpers.py:193-194 | an integer outside a tag's range gives OverflowError |
| SbfHelpers.NomValRoundTrip | src/pysbf2/sbfhelpers.py:233-256 | the nominal value of a CH, X, C or integer tag encodes, and decodes back to itself |
| SbfHelpers.EncodeExamples | tests/test_static.py:84-114 | 2345/U002 gives `29 09`; -2346789/I004 gives `db 30 dc ff`; text for U008 is a TypeError; Y008 is an unknown type |
| SbfHelpers.DecodeExamples | tests/test_static.py:116-143 | the inverse byte vectors decode to 2345 and -2346789; Y008 is an unknown type |
| SbfHelpers.NomValExamples | tests/test_static.py:145-153 | U002 and I002 give 0; C003, X002 and P002 give zero bytes; Y008 is an unknown type |
| SbfHelpers.Bytes2Id | src/pysbf2/sbfhelpers.py:40-52 | the id is below 0x2000 and the revision below 8 |
| SbfHelpers.Bytes2IdSplit | src/pysbf2/sbfhelpers.py:40-52 | for 2 bytes with value v: id = v mod 8192, revision = v div 8192, and id + 8192 * revision = v |
| SbfHelpers.Crc2BytesValue | src/pysbf2/sbfhelpers.py:79-89 | `crc2bytes` is 2 bytes whose little-endian value is the checksum, as `to_bytes(2, "little")` gives them |
| SbfHelpers.Crc2BytesInjective | src/pysbf2/sbfhelpers.py:79-89 | different checksums give different checksum bytes |
| SbfHelpers.Crc2Bytes | src/pysbf2/sbfhelpers.py:79-89 | `crc2bytes` always gives 2 bytes (their value is stated by `Crc2BytesValue`) |
| SbfHelpers.CrcToBytes | src/pysbf2/sbfhelpers.py:79-89 | running the `calc_crc` loops and then `to_bytes(2, "little")` gives `Crc2Bytes` |
| SbfHelpers.EscapeAll | src/pysbf2/sbfhelpers.py:92-101 | `escapeall` of a `str` succeeds only for the empty string; any character raises ValueError (`:02x` on a character) |
| SbfHelpers.PaddingContents | src/pysbf2/sbfhelpers.py:25-37 | `getpadding(n)` succeeds exactly when n is at most 255; it has length n (0 when negative), and byte i is i+1; `getpadding(2)` is `01 02` |
| SbfHelpers.GetPadding | src/pysbf2/sbfhelpers.py:25-37 | the appending loop gives `Padding(length)`, including the OverflowError of `to_bytes(256, 1)` |
| SbfHelpers.Padding | src/pysbf2/sbfhelpers.py:25-37 | the `getpadding` value that `PaddingContents` characterises and `GetPadding` computes |
| SbfHelpers.FirstWith | src/pysbf2/sbfhelpers.py:132-137 | the index found holds the value and no earlier entry does; None means no entry holds it |
| SbfHelpers.MsgIdToBytes | src/pysbf2/sbfhelpers.py:123-138 | the scan with early return gives `MsgIdBytes` |
| SbfHelpers.MsgIdBytes | src/pysbf2/sbfhelpers.py:123-138 | a found key gives 2 bytes; a name no entry has is an SBFMessageError (fully stated by `MsgIdBytesSpec`) |
| SbfHelpers.MsgIdBytesSpec | src/pysbf2/sbfhelpers.py:123-138 | a name is found exactly when some entry has it; then the result is 2 bytes whose value is the first such key; otherwise an SBFMessageError |
| SbfHelpers.MsgIdBytesExample | tests/test_static.py:170-171 | PVTCartesian with key 4006 gives `a6 0f` |
| SbfHelpers.KeyFromVal | src/pysbf2/sbfhelpers.py:104-120 | the key of the first entry holding the value; KeyError when none does |
| SbfMessage.TagSize | src/pysbf2/sbfmessage.py:257-261 | a CH attribute spans the whole current payload; any other spans `attsiz` |
| SbfMessage.BitfieldTagSize | src/pysbf2/sbfmessage.py:306-307 | every bitfield container tag has a positive `attsiz` |
| SbfMessage.TopW | src/pysbf2/sbfmessage.py:116-122 | an empty schema leaves the walk alone and `anam` unbound; otherwise `anam` is bound |
| SbfMessage.Store | src/pysbf2/sbfmessage.py:282-286 | a plain name is set to the value and every other name keeps its value; `_HP` names add an integer to the existing attribute, AttributeError when it is missing, TypeError unless both are integers |
| SbfMessage.Single | src/pysbf2/sbfmessage.py:225-288 | a scalar step moves the offset forward and keeps every name; parse mode leaves the payload alone, build mode extends it |
| SbfMessage.SingleParse | src/pysbf2/sbfmessage.py:263-270 | the payload is unchanged and the offset advances by `asiz` |
| SbfMessage.SingleBuild | src/pysbf2/sbfmessage.py:271-286 | the payload is extended, the offset advances by `asiz`, and a plain name holds its keyword value when one is given |
| SbfMessage.Bits | src/pysbf2/sbfmessage.py:329-369 | a flag is a scalar with a size; the bit offset advances by it; names are kept; parse mode leaves the bitfield alone |
| SbfMessage.FlagValue | src/pysbf2/sbfmessage.py:361-365 | parse mode: `(bitfield >> off) & mask` is an integer below `2^atts`, failing (ValueError) only when the bit offset or the width is negative; build mode: the keyword value or 0 |
| SbfMessage.FlagsW | src/pysbf2/sbfmessage.py:318-321 | the flag loop: each flag in turn from the given bit state (its packing is stated by `FlagsBuild` and `FlagsParse`) |
| SbfMessage.Bitfield | src/pysbf2/sbfmessage.py:306-327 | with a container tag: the offset advances by its positive `attsiz`; parse mode keeps the payload, build mode appends exactly `attsiz` bytes |
| SbfMessage.BitfieldSized | src/pysbf2/sbfmessage.py:308-327 | the offset advances by the container width; parse mode keeps the payload, build mode appends exactly that many bytes |
| SbfMessage.GroupSize | src/pysbf2/sbfmessage.py:202-211 | a plain name found with an integer value succeeds exactly; any success is the integer value of some attribute |
| SbfMessage.Group | src/pysbf2/sbfmessage.py:199-223 | a group: its count, then that many passes (its properties are `GroupGrows`, `GroupOfNone`, `GroupBuildParse`) |
| SbfMessage.Iterate | src/pysbf2/sbfmessage.py:214-219 | the passes `i+1 .. n` of a group body (stated by `IterateGrows` and `IterateBuildParse`) |
| SbfMessage.EntryW | src/pysbf2/sbfmessage.py:161-182 | one schema entry: a bitfield (when parsed as one), a group or a scalar (stated by `EntryGrows` and `EntryBuildParse`) |
| SbfMessage.EntriesW | src/pysbf2/sbfmessage.py:216-219 | the entries of a dictionary in order (stated by `EntriesGrows` and `EntriesBuildParse`) |
| SbfMessage.Convert | src/pysbf2/sbfmessage.py:125-143 | AttributeError, TypeError and ValueError become an incorrect-type SBFTypeError, OverflowError an overflow SBFTypeError, both naming `anam` and the message; UnboundLocalError when `anam` is unbound; other errors pass |
| SbfMessage.GetDictAsWritten | src/pysbf2/sbfmessage.py:391-397 | `_get_dict` as written: an unknown non-empty name fails inside `escapeall` with ValueError |
| SbfMessage.GetDict | src/pysbf2/sbfmessage.py:391-397 | `_get_dict` as intended: the schema exactly for a known name, otherwise the unknown-message-type SBFMessageError |
| SbfMessage.LenChecksum | src/pysbf2/sbfmessage.py:371-378 | success needs an id for the name and gives a 2-byte checksum (fully stated by `LenChecksumSpec`) |
| SbfMessage.AttributesRaw | src/pysbf2/sbfmessage.py:107-123 | `_do_attributes` before its handler, with the `anam` the handler sees (stated by `AttributesFields`, `NoKwargsMessage`, `TopWFailureAt`) |
| SbfMessage.Attributes | src/pysbf2/sbfmessage.py:97-143 | `_do_attributes` with the handler (stated by `AttributesFields`, `WalkErrorNamesAttribute`, `AttributesBuildParse`) |
| SbfMessage.Identify | src/pysbf2/sbfmessage.py:80-91 | a name is kept with the given revision; a numeric or bytes id succeeds exactly when its masked value has a table name, which is the name used |
| SbfMessage.Lookup | src/pysbf2/sbfmessage.py:83-89 | success exactly when the masked id has a name; then that name and the revision bits of the masked id; otherwise an SBFMessageError naming the masked id |
| SbfMessage.Construct | src/pysbf2/sbfmessage.py:47-95 | a constructed message carries the name `Identify` resolved and the given parsebitfield setting |
| SbfMessage.Serialize | src/pysbf2/sbfmessage.py:456-471 | succeeds exactly when the name has an id; the bytes start with `$@` and are 4 longer than checksum, length and payload together |
| SbfMessage.IdName | src/pysbf2/sbfmessage.py:87 | a name is found exactly when some table entry has the key |
| SbfMessage.SBFMessage.constructor | src/pysbf2/sbfmessage.py:72-78 | a mutable object with no payload, empty length and checksum, and the given parsebitfield setting |
| SbfMessage.SBFMessage.Create | src/pysbf2/sbfmessage.py:47-95 | `SBFMessage(...)` succeeds exactly when `Construct` does; the new object is frozen and its state is the constructed one; otherwise the same exception |
| SbfMessage.SBFMessage.Init | src/pysbf2/sbfmessage.py:80-95 | resolving the id and setting the attributes leave the object frozen in the `Construct` state, or raise its error |
| SbfMessage.SBFMessage.ResolveId | src/pysbf2/sbfmessage.py:83-89 | the masked id, the revision and the name are those of `Lookup` |
| SbfMessage.SBFMessage.DoAttributes | src/pysbf2/sbfmessage.py:97-143 | the fields afterwards are those of `Attributes`, with its exception conversion |
| SbfMessage.SBFMessage.WalkTop | src/pysbf2/sbfmessage.py:107-122 | the top-level loop from offset 0 ends in the walk of `TopW` (offset, payload and attributes) or its first error, with `anam` the last attribute begun |
| SbfMessage.SBFMessage.SetAttribute | src/pysbf2/sbfmessage.py:145-182 | the new offset, payload and attributes are those of `EntryW`; the index stack is handed back unchanged |
| SbfMessage.SBFMessage.SetAttributeGroup | src/pysbf2/sbfmessage.py:184-223 | pushes a level, runs the passes and pops it: the outcome of `Group` with the index stack as before |
| SbfMessage.SBFMessage.GroupCount | src/pysbf2/sbfmessage.py:199-211 | the repeat count is that of `GroupSize` |
| SbfMessage.NestName | src/pysbf2/sbfmessage.py:207-210 | `split("+")` into other than two parts is a ValueError; the only errors are ValueError and IndexError; a result starts with the part before the `+` |
| SbfMessage.NestedName | src/pysbf2/sbfmessage.py:205-210 | the `name+n` loop appends the name of `NestName` |
| SbfMessage.SBFMessage.SetAttributeSingle | src/pysbf2/sbfmessage.py:225-288 | the new offset, payload and attributes are those of `Single` |
| SbfMessage.SBFMessage.DecodeSingle | src/pysbf2/sbfmessage.py:264-288 | with a payload given, the value decoded at the offset is stored and the offset advances by its size |
| SbfMessage.SBFMessage.EncodeSingle | src/pysbf2/sbfmessage.py:270-288 | without a payload, the keyword (or nominal) value is encoded, appended and stored |
| SbfMessage.IndexedKey | src/pysbf2/sbfmessage.py:252-255 | the stored name is the attribute name followed by `_NN` for every positive group index |
| SbfMessage.AppendLevels | src/pysbf2/sbfmessage.py:207-209 | `n` levels append the zero-filled first `n` indices; more levels than indices is an IndexError |
| SbfMessage.SBFMessage.SetAttributeBitfield | src/pysbf2/sbfmessage.py:290-327 | the flag loop and the container append give the outcome of `Bitfield` |
| SbfMessage.SBFMessage.SetBitfieldSized | src/pysbf2/sbfmessage.py:308-327 | with the container width known, the flag loop and the append give the outcome of `BitfieldSized` |
| SbfMessage.SBFMessage.SetFlags | src/pysbf2/sbfmessage.py:317-321 | running every flag from bit offset 0 yields the bitfield, bit offset and attributes of `FlagsW`, or its first error; the payload is untouched |
| SbfMessage.SBFMessage.SetAttributeBits | src/pysbf2/sbfmessage.py:329-369 | the new bitfield, bit offset and attributes are those of `Bits`; the payload is unchanged |
| SbfMessage.SBFMessage.DoLenChecksum | src/pysbf2/sbfmessage.py:371-378 | length and checksum become those of `LenChecksum`; nothing else changes |
| SbfMessage.SBFMessage.SetAttr | src/pysbf2/sbfmessage.py:439-454 | after construction every update is an SBFMessageError and changes nothing; before it, the attribute is set |
| SbfMessage.SBFMessage.Identity | src/pysbf2/sbfmessage.py:474-483 | the identity is the stored name |
| SbfMessage.SBFMessage.SerializeObj | src/pysbf2/sbfmessage.py:456-471 | the object's bytes are `Serialize` of its state |
| SbfMessageProps.DecimalStringValue | src/pysbf2/sbfmessage.py:252-255 | `str(n)` is all digits, with value n |
| SbfMessageProps.Pad2Parses | src/pysbf2/sbfmessage.py:252-255 | the `{i:02d}` suffix reads back as i |
| SbfMessageProps.PartInjective | src/pysbf2/sbfmessage.py:252-255 | different indices give different suffixes |
| SbfMessageProps.SuffixSnoc | src/pysbf2/sbfmessage.py:253-255 | a deeper level appends its suffix after the outer ones |
| SbfMessageProps.PassKeysDistinct | src/pysbf2/sbfmessage.py:214-215 | two passes of one group give an attribute two different stored names |
| SbfMessageProps.SuffixOfZeros | src/pysbf2/sbfmessage.py:253-255 | index 0 at every level adds no suffix |
| SbfMessageProps.NestIsSuffix | src/pysbf2/sbfmessage.py:207-210 | with positive indices the `name+n` suffix equals the stored-name suffix |
| SbfMessageProps.SplitNone | src/pysbf2/sbfmessage.py:207-208 | `split` of a string without the separator is the string alone |
| SbfMessageProps.SplitFirst | src/pysbf2/sbfmessage.py:207-208 | `split` cuts at the first separator and continues on the rest |
| SbfMessageProps.NestNameRef | src/pysbf2/sbfmessage.py:205-211 | `name+n` refers to the name with the first n indices appended; IndexError when fewer than n levels are open |
| SbfMessageProps.GrowsTrans | src/pysbf2/sbfmessage.py:116-122 | the progress relation (payload fixed or extended, offset not back, attribute names kept) is transitive |
| SbfMessageProps.StoreKeeps | src/pysbf2/sbfmessage.py:282-286 | storing keeps every name; a plain name is set to the value |
| SbfMessageProps.SingleGrows | src/pysbf2/sbfmessage.py:257-288 | a scalar step makes progress |
| SbfMessageProps.FlagsKeep | src/pysbf2/sbfmessage.py:318-321 | the flag loop keeps every attribute name |
| SbfMessageProps.BitfieldGrows | src/pysbf2/sbfmessage.py:306-327 | a bitfield step makes progress |
| SbfMessageProps.EntryGrows | src/pysbf2/sbfmessage.py:161-182 | every schema entry makes progress |
| SbfMessageProps.EntriesGrows | src/pysbf2/sbfmessage.py:216-219 | a schema dictionary makes progress |
| SbfMessageProps.GroupGrows | src/pysbf2/sbfmessage.py:199-223 | a group makes progress |
| SbfMessageProps.IterateGrows | src/pysbf2/sbfmessage.py:214-219 | the passes of a group make progress |
| SbfMessageProps.GroupOfNone | src/pysbf2/sbfmessage.py:202-219 | a group with count 0 or less adds no bytes and no attributes |
| SbfMessageProps.Pow2Add | src/pysbf2/sbfmessage.py:362-369 | `1 << (a+b)` is `(1 << a) * (1 << b)` |
| SbfMessageProps.PyOrDisjoint | src/pysbf2/sbfmessage.py:365 | or-ing a value shifted above the bits already set is addition |
| SbfMessageProps.ExtractField | src/pysbf2/sbfmessage.py:362 | `(bitfield >> off) & mask` recovers a field packed at `off`, leaving the lower fields |
| SbfMessageProps.BitsBuildStep | src/pysbf2/sbfmessage.py:359-369 | building one flag packs its value at the bit offset and advances it by the flag width |
| SbfMessageProps.BitsParseStep | src/pysbf2/sbfmessage.py:359-369 | parsing one flag extracts exactly the value packed at the offset |
| SbfMessageProps.FlagsBuild | src/pysbf2/sbfmessage.py:318-321 | building flags packs them in consecutive bit ranges from bit 0 |
| SbfMessageProps.FlagsParse | src/pysbf2/sbfmessage.py:318-321 | parsing the packed bitfield recovers every flag value below `2^w`, with the same attributes |
| SbfMessageProps.BitfieldBuildShape | src/pysbf2/sbfmessage.py:312-327 | build mode appends the packed bitfield as `attsiz` little-endian bytes |
| SbfMessageProps.BitfieldParseShape | src/pysbf2/sbfmessage.py:312-327 | parse mode reads `attsiz` bytes at the offset and advances by them |
| SbfMessageProps.BitfieldBuildParse | src/pysbf2/sbfmessage.py:306-327 | a built bitfield, parsed from any payload that extends it, gives the same attributes and offset |
| SbfMessageProps.PrefixSlice | src/pysbf2/sbfmessage.py:266 | the slice at a prefix's end is the bytes appended there |
| SbfMessageProps.ScalarEncodes | src/pysbf2/sbfmessage.py:275-277 | a keyword or nominal value encodes to `attsiz` bytes that decode back to it |
| SbfMessageProps.SingleBuildParse | src/pysbf2/sbfmessage.py:257-288 | a built scalar, parsed at the same offset, gives the same attributes and offset |
| SbfMessageProps.EntryBuildParse | src/pysbf2/sbfmessage.py:161-182 | a built entry, parsed at the same offset, gives the same attributes and offset |
| SbfMessageProps.EntriesBuildParse | src/pysbf2/sbfmessage.py:216-219 | the same for a dictionary of entries |
| SbfMessageProps.GroupBuildParse | src/pysbf2/sbfmessage.py:199-223 | the same for a repeating group |
| SbfMessageProps.IterateBuildParse | src/pysbf2/sbfmessage.py:214-219 | the same for the passes of a group |
| SbfMessageProps.TopWalk | src/pysbf2/sbfmessage.py:119-122 | the top-level loop is the dictionary walk from an empty index stack |
| SbfMessageProps.LenChecksumSpec | src/pysbf2/sbfmessage.py:371-378 | succeeds exactly when the name has an id and the payload is shorter than 65536; the length is 2 bytes of value `len(payload)`; the checksum is `crc2bytes(msgid + length + payload)` |
| SbfMessageProps.AttributesFields | src/pysbf2/sbfmessage.py:97-143 | a constructed message keeps its name, revision and parsebitfield; its length and checksum are those of its payload; it has no payload exactly when there are no keywords |
| SbfMessageProps.PayloadKept | src/pysbf2/sbfmessage.py:115 | a message constructed from `payload=p` alone has exactly `p` as its payload |
| SbfMessageProps.NoKwargsMessage | src/pysbf2/sbfmessage.py:111-113 | no keywords: success exactly when the name has an id; no payload, no attributes, the not-yet-implemented flag, length 0 |
| SbfMessageProps.TopWFailsAt | src/pysbf2/sbfmessage.py:119-122 | when the entries before entry k walk and entry k fails, the loop fails with that error and `anam` names entry k, whatever is nested inside it |
| SbfMessageProps.TopWFailureAt | src/pysbf2/sbfmessage.py:119-122 | a failing loop fails at some entry k whose predecessors all walk, with that entry's error, and `anam` names entry k |
| SbfMessageProps.WalkErrorNamesAttribute | src/pysbf2/sbfmessage.py:119-143 | for any schema: a failure at top-level entry k becomes the incorrect-type or overflow SBFTypeError naming entry k and the message, by the error's class; other errors pass unchanged |
| SbfMessageProps.UnknownNameNoKwargs | src/pysbf2/sbfmessage.py:111-123 | without keywords an unknown name is the no-id SBFMessageError of `msgid2bytes` |
| SbfMessageProps.UnknownNameRefused | src/pysbf2/sbfmessage.py:114-116 | with keywords a name without a schema is the unknown-message-type SBFMessageError |
| SbfMessageProps.UnknownNameAsWritten | src/pysbf2/sbfmessage.py:391-397 | as written, only known names and the empty name behave as intended; any other unknown name gives ValueError, which the handler turns into UnboundLocalError |
| SbfMessageProps.UnknownNameExample | src/pysbf2/sbfmessage.py:391-397 | `SBFMessage("X", payload=b"")` with no schema for "X": UnboundLocalError as written, the unknown-message-type error as intended |
| SbfMessageProps.OverflowNamesAttribute | src/pysbf2/sbfmessage.py:138-143 | one instance of `WalkErrorNamesAttribute`: a one-scalar schema whose value is too wide is an overflow SBFTypeError naming the attribute and the message |
| SbfMessageProps.WrongTypeNamesAttribute | src/pysbf2/sbfmessage.py:125-137 | one instance of `WalkErrorNamesAttribute`: a one-scalar schema whose value has the wrong type is an incorrect-type SBFTypeError naming the attribute and the message |
| SbfMessageProps.AttributesBuildParse | src/pysbf2/sbfmessage.py:263-280 | building from keywords, then constructing from the built payload, gives the same message (revision aside) |
| SbfMessageProps.IdNameAt | src/pysbf2/sbfmessage.py:87 | in a table of distinct keys every key finds its own name |
| SbfMessageProps.NumericIdRevisionZero | src/pysbf2/sbfmessage.py:83-89 | a numeric id always gives revision 0 and the name of the masked id |
| SbfMessageProps.UnknownIdRefused | src/pysbf2/sbfmessage.py:83-89 | an id without a table entry is an SBFMessageError naming the masked id |
| SbfMessageProps.ConstructBuildParse | src/pysbf2/sbfmessage.py:47-95 | a message built by name, rebuilt from its table id and its payload, is the same message with revision 0 |
| SbfMessageProps.SerializeLayout | src/pysbf2/sbfmessage.py:456-471 | `serialize` is `$@`, checksum, id, length, payload: 8 bytes more than the payload; the length field holds the payload length and the checksum covers everything after it |
| SbfReader.StreamRead | src/pysbf2/sbfreader.py:302 | `read(n)` gives the next min(n, remaining) bytes, or all remaining ones for a negative n |
| SbfReader.ReadBytes | src/pysbf2/sbfreader.py:292-310 | EOFError exactly when 0 bytes are asked for or left; success exactly when n bytes (or, for negative n, all) are there, returning exactly those; otherwise SBFStreamError with the counts, at the stream's end |
| SbfReader.LineEnd | src/pysbf2/sbfreader.py:321 | `readline` stops just after the first line feed, or at the end of the stream |
| SbfReader.ReadLine | src/pysbf2/sbfreader.py:312-329 | EOFError exactly at the stream's end; success exactly when a line feed lies ahead, giving the bytes up to and including it; otherwise the truncated-line SBFStreamError of the bytes left, at the end of the stream |
| SbfReader.ParseSbf | src/pysbf2/sbfreader.py:215-241 | the position only moves forward, within the stream |
| SbfReader.ParseNmea | src/pysbf2/sbfreader.py:243-264 | the position only moves forward, within the stream |
| SbfReader.Caught | src/pysbf2/sbfreader.py:195-208 | the exception classes the `except` clause of `read` catches: SBFMessageError, SBFTypeError, SBFParseError, SBFStreamError and the NMEA errors (no RTCM error can arise, the RTCM branch being unreachable) |
| SbfReader.Handle | src/pysbf2/sbfreader.py:193-211 | EOFError returns `(None, None)`; an uncaught error leaves `read`; a caught error is passed over (0), reported to the handler or the log (1), or raised (2); any other setting passes over |
| SbfReader.ReadStep | src/pysbf2/sbfreader.py:150-191 | one pass stays within the stream, and a pass that goes round again has consumed at least one byte |
| SbfReader.ReadFrom | src/pysbf2/sbfreader.py:135-213 | `read` ends within the stream |
| SbfReader.Parse | src/pysbf2/sbfreader.py:376-386 | with the validate bit set, a checksum mismatch is the invalid-CRC SBFMessageError carrying both checksums; otherwise the result is the constructor on the id and revision of bytes 4-6 with `payload=message[8:]`; a success is a parsed message with a payload |
| SbfReader.SBFReader.constructor | src/pysbf2/sbfreader.py:77-113 | the settings as given, position 0, nothing reported |
| SbfReader.SBFReader.ReadBytesM | src/pysbf2/sbfreader.py:292-310 | result and new position are those of `ReadBytes` |
| SbfReader.SBFReader.ReadLineM | src/pysbf2/sbfreader.py:312-329 | result and new position are those of `ReadLine` |
| SbfReader.SBFReader.ParseSbfM | src/pysbf2/sbfreader.py:215-241 | result and new position are those of `ParseSbf` |
| SbfReader.SBFReader.ParseNmeaM | src/pysbf2/sbfreader.py:243-264 | result and new position are those of `ParseNmea` |
| SbfReader.SBFReader.DoError | src/pysbf2/sbfreader.py:331-347 | ERR_RAISE raises the error; ERR_LOG reports it to the handler, or to the log when there is none; otherwise nothing |
| SbfReader.SBFReader.Except | src/pysbf2/sbfreader.py:193-211 | whether `read` is left, and with what, as `Handle` says |
| SbfReader.SBFReader.Read | src/pysbf2/sbfreader.py:135-213 | the `while`/`continue` loop gives the result, position and reports of `ReadFrom` |
| SbfReader.SBFReader.Next | src/pysbf2/sbfreader.py:120-133 | the end of the stream is StopIteration; a frame is returned as `(raw, parsed)`; errors pass through |
| SbfReaderProps.ReadSkipsNoise | src/pysbf2/sbfreader.py:154-157 | bytes other than `$` are passed over one at a time, with nothing reported |
| SbfReaderProps.NoHeaderMeansEof | src/pysbf2/sbfreader.py:149-194 | a stream with no `$` left reads as `(None, None)` at its end, whatever the settings |
| SbfReaderProps.UnknownHeader | src/pysbf2/sbfreader.py:189-211 | `$` followed by neither `@` nor an NMEA header is an SBFParseError of those 2 bytes: raised with ERR_RAISE, reported with ERR_LOG, passed over otherwise |
| SbfReaderProps.SbfHeaderStep | src/pysbf2/sbfreader.py:158-169 | after `$@` the pass is decided by `_parse_sbf` and the SBF filter bit |
| SbfReaderProps.DeclaredLength | src/pysbf2/sbfreader.py:228-230 | the length field is below 65536 |
| SbfReaderProps.PayloadRead | src/pysbf2/sbfreader.py:230-231 | the payload read of a frameable block returns the bytes up to the frame's end |
| SbfReaderProps.SbfBody | src/pysbf2/sbfreader.py:225-241 | `_parse_sbf` returns the block's own bytes, parsed only when the filter and the parsing flag allow |
| SbfReaderProps.SbfFrame | src/pysbf2/sbfreader.py:162-169 | a block declaring L > 8 is framed as exactly its L bytes (L < 8: the rest of the stream); returned (parsed when parsing is on) when the SBF bit is set, passed over otherwise |
| SbfReaderProps.EmptyBlockEndsRead | src/pysbf2/sbfreader.py:230-231 | a declared length of exactly 8 becomes `read(0)` and `read` returns `(None, None)` |
| SbfReaderProps.SbfTruncated | src/pysbf2/sbfreader.py:225-231 | `_parse_sbf` on a block longer than the rest of the stream fails with the requested and returned counts and consumes the stream |
| SbfReaderProps.TruncatedBlock | src/pysbf2/sbfreader.py:305-309 | a block longer than the rest of the stream is an SBFStreamError with the requested and returned counts |
| SbfReaderProps.NmeaFrame | src/pysbf2/sbfreader.py:171-178 | an NMEA sentence runs to the line feed; returned when the NMEA bit is set (NMEAError if the NMEA parser refuses it), passed over otherwise |
| SbfReaderProps.ParseIgnoresCrc | src/pysbf2/sbfreader.py:379-386 | with the validate bit clear, the checksum is not looked at: the result is the constructor on bytes 4-6 and `message[8:]` |
| SbfReaderProps.ParseAccepted | src/pysbf2/sbfreader.py:383-386 | an accepted block is the message named by the masked id of bytes 4-6, with revision 0, bitfields parsed, and exactly `message[8:]` as payload |
| SbfReaderProps.ParseDetectsByteChange | src/pysbf2/sbfreader.py:376-382 | with the validate bit set, changing any one byte after the sync bytes of a correct block makes `parse` raise the invalid-checksum error with both values |
| SbfReaderProps.SerializedPassesCrc | src/pysbf2/sbfreader.py:376-386 | a serialized message passes the checksum test and is rebuilt from its id and its own payload |
| SbfReaderProps.SerializedIdField | src/pysbf2/sbfreader.py:383-386 | with 13-bit table keys, the id read back from a serialized message is the key of its name |
| SbfReaderProps.ParseSerialized | src/pysbf2/sbfreader.py:376-386 | `parse(serialize(m))` of a message built by name gives back the same message with revision 0, whatever the validate setting |
| SbfReaderProps.SerializedBlockMisframed | src/pysbf2/sbfreader.py:229-231 | a serialized block read from a stream is framed as its first `len(payload)` bytes, 8 short of the block |

## Findings

| source | as written | input that shows it | evidently intended | confidence | as-written member | corrected member |
|---|---|---|---|---|---|---|
| src/pysbf2/sbfmessage.py:391-397 | `_get_dict` formats an unknown name with `escapeall`, which expects bytes; on a non-empty `str` its `:02x` raises ValueError. The handler of `_do_attributes` then formats `anam`, which is not yet bound, so the caller sees UnboundLocalError | `SBFMessage("X", payload=b"")` where "X" has no schema | the SBFMessageError "Unknown message type" | not executed | SbfMessage.GetDictAsWritten, SbfMessageProps.UnknownNameAsWritten, SbfMessageProps.UnknownNameExample | SbfMessage.GetDict, SbfMessageProps.UnknownNameRefused |

The rest of the model uses the corrected `GetDict`.

## Left out

- Floating point: `F` tags (IEEE-754 pack and unpack), scaled attributes (`[tag, factor]` with `round(..., 12)`) and the rounding of `_HP` sums. An `F` or `A` tag in a walk gives `Unmodelled(tag)` instead of a value.
- Text codecs: `str.encode`/`bytes.decode` with `backslashreplace`. A `str` value is held as its UTF-8 bytes, and CH decoding wraps the bytes unchanged.
- `__str__`, `__repr__`, `itow2utc` and `utc2itow`: display and time formatting. `escapeall` is modelled only as far as `_get_dict` applies it to a name (`EscapeAll`); the text it builds for bytes is left out with the message texts.
- `__str__` lists attributes in insertion order. The model keeps them in a map, which has no order; nothing else in the core depends on that order.
- The exception message texts: errors carry the values they are formatted from.
- Sockets (`SocketWrapper`, `bufsize`), the logger and the error handler are represented by what they receive (the `reports` list). The `datastream` property is not modelled.
- NMEA and RTCM parsing happen in other libraries. NMEA is a header set plus an acceptance predicate. The RTCM branch of `read` (`sbfreader.py:181-188`) cannot be reached, because a first byte other than `$` was already passed over; the loop marks it unreachable. `_parse_rtcm3` is not modelled.
- The block schema and id tables are inputs: `sbftypes_blocks` is not part of this model.
- `SbfHelpers.ParseDecimal`: Python `int()` also accepts signs, spaces and underscores. Only plain digits are accepted here. Every tag in the tables is plain digits.
- Python `bool` values used as integers, and attribute names that collide with the object's own fields: attributes live in their own map.
- During construction, `setattr` writes that map directly; only `SetAttr` models `__setattr__` after construction.
- `SbfReader.Parse`: the revision that `bytes2id` returns is passed as `revno` but the constructor discards it for a numeric id (`NumericIdRevisionZero`); `serialize` never writes a revision.
- Conditional groups, sub-block padding, 4-byte payload alignment and a length field that counts the header do not occur in `sbfmessage.py`; the test vectors at `tests/test_parse.py:37` and `:77` rely on them, so they are not build obligations here.
- `SbfReaderProps.ParseSerialized`, `SbfMessageProps.ConstructBuildParse`, `SbfMessageProps.AttributesBuildParse`: the round trip is stated for schemas whose every attribute decodes to what was encoded (`EntriesBack`): integer tags with values in range, X bytes of the tag's width, bitfield flags of integer tags with values below `2^w`. `CH` and `C` tags, `P` tags (which `val2bytes` refuses) and floats are outside it.
- `SbfReader.ParseSbf`, `SbfReader.ParseNmea`, `SbfReader.ReadStep`, `SbfReader.ReadFrom`: their own contracts state progress only; what they compute is stated by the lemmas in `SbfReaderProps` and by the class methods proved against them.
