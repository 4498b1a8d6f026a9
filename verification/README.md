# APER codec, AES and MILENAGE, and capture files: a Dafny model

This project models three byte-level cores of the OmniRAN emulator and proves what each is for.

* **The ASN.1 aligned-PER codec** (`lib/aper`), through which every NGAP message passes. `Encoding` and
  `Decoding` say, as functions on bit lists, what the encoder appends and what the decoder reads; the
  classes `Marshal.RawBitData` and `Aper.BitData` are the two mutable buffers of the Go code, with its loops,
  and every method is proved to do exactly what its function says, errors included. The theorems are about
  the functions: what is written is read back, wherever it is written and whatever follows it, by structural
  induction over SEQUENCE, CHOICE, SEQUENCE OF, OPTIONAL and open types. Go's reflection and field tags
  become the datatypes `Common.Type`, `Common.Params` and `Common.Value`. A Go slice out of range is the
  error `Panic`. `WritableValues` says which values are written at all, `Exactness` which come back with all
  their parts. The other direction is in `CanonicalForms` (numbers, lengths, counts), `CanonicalStrings` and
  `CanonicalValues`: which of the inputs the decoder accepts are the encoder's own, and are written back bit for bit.
  What the bits themselves are is said without those functions' helpers, in literal widths, thresholds, orders and
  errors: `Layouts`, `ValueLayouts` and `TypeLayouts` for the encoder, clause by clause of X.691, `ReadLayouts` for the
  decoder on any bits at all, and `References` for the tag each field is handled under.
  `Ngap` puts the codec to its use: the NGAP envelope, with any table of message bodies.
* **AES and MILENAGE** (`lib/aes`, `lib/milenage`). `AesCipher` is the textbook cipher and key expansion of
  FIPS 197; `Aes` and `AesSchedule` are the unrolled table code and the sliding key schedule, proved to
  compute it, and `AesVectors` fixes both by the examples of the standard, word by word and round by round.
  `MilenageFunctions` is section 4.1 of 3GPP TS 35.206 and the two sides of an authentication; `MilenageReference` is
  the same section on lists of 128 bits, with its rotations, constants and bit ranges as the standard writes them;
  `Milenage` is the buffer code.
* **Capture files** (`internal/webserver/diagnostics_handler.go`). `PcapFormat` is the file format and what a
  reader finds in any file; `Pcap` is the capture manager with the files in its directory, whose invariant is
  that each file encodes what was captured into it, whether built by the emulator or received from the raw
  socket, and the reader's loops; `PcapRoundTrip` connects the two. `PcapLayout` has the format byte for byte, `PcapLabels` every label and
  filter by port, protocol and byte. `PcapChunks` and `PcapDatagrams` lay out what arrives from a network, and `PcapReadable` says of any file whether the reader gets through it. Reading has three outcomes: a result, a
  slice out of range, or a loop that stays in place for ever.

Exclusive or is `Gf256.Add` on bytes and `Gf256.AddWord` on words.

Where the code does less than its comments or the standard it cites promise, the model follows the code, a
lemma gives the exact condition under which it does meet the promise, and another a concrete input outside it:

* X.691, 10.9.3.8, ends a fragmented string with an empty fragment; the encoder writes none, and 65536 units
  left become no fragment at all (`RoundTrip.StringBack`, `RoundTrip.FragmentsLost`): 65536 octets are encoded
  as none (`Shortfalls.LongStringVanishes`), 16385 octets under SIZE(1..MAX) make the decoder go on past them
  (`Shortfalls.WholeFragmentOverBound`).
* With a positive lower bound the fragment loop adds the bound in every turn (`RoundTrip.Overrun`): 16386 octets
  under SIZE(1..MAX) run out of content (`Shortfalls.SecondFragmentOverBound`).
* A string with both bounds is split into fragments, and only the first is read back
  (`RoundTrip.FragmentsLost`): 20000 octets under SIZE(0..65535) (`Shortfalls.BoundedStringCut`).
* A fixed size is checked on the long path only (`RoundTrip.FixedBack`): one octet under SIZE(2) is written
  (`Shortfalls.FixedSizeIgnored`).
* The two octet-count loops of an INTEGER disagree in two families of ranges (`IntegerRoundTrip.OctetCountWidths`,
  `IntegerRoundTrip.MiscountedBack`, `IntegerRoundTrip.WrittenFromZero`). NGAP's RepetitionPeriod, 0..131071, is in
  one (`Shortfalls.RepetitionPeriodWidths`): 300 does not come back (`Shortfalls.OctetCountDoubled`) and 70000
  cannot be written (`Shortfalls.OctetCountOverCapacity`).
* The octets of an INTEGER are counted for the value, and its distance from the lower bound goes into them
  (`IntegerRoundTrip.IntegerWritten`): 0 above -1000 and 0 in -100000..100000 cannot be written
  (`Shortfalls.CountedForTheValue`).
* A range of more than 63 bits wraps, and the decoder adds a lower bound the encoder did not subtract
  (`IntegerRoundTrip.IntegerBack`): 0 in -1..2^63-1 is written and never read back (`Shortfalls.LowerBoundAdded`).
* An ENUMERATED of one value is read as 0 whatever the value (`IntegerRoundTrip.EnumeratedBack`): 1 in 1..1
  (`Shortfalls.SingleEnumeratedLost`).
* An unbounded SEQUENCE OF has its count in one octet (`IntegerRoundTrip.CountBack`): 256 elements are counted
  as none (`Shortfalls.CountWrapsToZero`).
* A message whose last field takes no bits is refused (`WholeValue.FieldRoundTrip`): an octet and then an INTEGER
  of one possible value (`Shortfalls.TrailingConstantRefused`). A type that is `Solid`, which can be read off its
  declaration, has no such values (`SolidTypes.SolidMessage`).
* The decoder looks at no bound of an INTEGER, takes any octet count for it and either extension bit
  (`CanonicalForms.IntegerCanonical`): the bits 111 under 0..5 are read as 7, which the encoder refuses
  (`CanonicalForms.OutOfBoundsAccepted`), and an extension bit set for a value within the bounds is accepted
  (`CanonicalForms.ExtendedWithinBounds`).
* That a message comes back does not mean that its parts do: eight octets that are the encoding of a SEQUENCE and are
  read as the very value that was written, although its first integer is read from an octet too many and what follows
  from the wrong place (`Coincidence.MisreadComesBack`).
* `os_memcmp` returns a signed index, so a difference in the first byte counts as none
  (`MilenageFunctions.MemCmpOrders`): a network ahead in the first byte is asked to resynchronise
  (`MilenageFunctions.FirstByteIgnored`), and a token whose MAC is wrong in its first byte is accepted
  (`MilenageFunctions.CheckOutcome`, `MilenageFunctions.WrongMacAccepted`).
* Simulated SCTP payloads of more than 65516 bytes do not come back from a capture (`PcapRoundTrip.FileRoundTrip`): at
  65517 the reader never ends (`PcapRoundTrip.LongestPayload`).
* A received SCTP packet can keep the reader from the whole file it was captured into (`PcapReadable.FileDecides`,
  `PcapReadable.PacketPoisons`): a chunk length above 65532 is rounded up to zero and the reader never ends
  (`PcapReadable.LongestChunkCaptured`), and a DATA chunk too short for the payload protocol it seems to have is a slice
  out of range (`PcapReadable.ShortDataCaptured`).

The files depend on one another in this order: `bits`, `common`, `bitstring`, `encoding`, `decoding`, `masks`,
`references`, `marshal`, `aper`, `roundtrip`, `integers`, `layouts`, `layouts_values`, `layouts_types`, `layouts_read`, `wholevalue`, `writable`, `exact`, `canonical`, `canonical_strings`,
`canonical_values`, `coincidence`, `solid`, `shortfalls`, `ngap`;
`gf256`, `aes_tables`, `aes_cipher`, `aes`, `aes_schedule`, `aes_vectors`, `milenage_functions`, `milenage_reference`,
`milenage`; `pcap_format`, `pcap_labels`, `pcap_chunks`, `pcap_datagrams`, `pcap_roundtrip`, `pcap_layout`, `pcap_readable`, `pcap`. The main results are `WholeValue.FieldRoundTrip`,
`WholeValue.MessageRoundTrip`, `Exactness.ExactRoundTrip`, `WritableValues.ValueWritten`, `SolidTypes.WrittenAndBack`,
`RoundTrip.StringBack`, `IntegerRoundTrip.IntegerBack`, `CanonicalForms.IntegerCanonical`,
`CanonicalStrings.StringCanonical`, `CanonicalValues.PartsCanonical`, `CanonicalValues.ReadAndBack`, `Ngap.NgapRoundTrip`,
`Aes.AesEncrypt`, `AesSchedule.AesSetupEnc`, `AesVectors.CipherExample`, `MilenageReference.F2F5AreReference`,
`MilenageFunctions.Agreement`, `MilenageFunctions.CheckOutcome`, `TypeLayouts.SliceLayout`, `PcapLabels.UdpLabels`,
`PcapRoundTrip.FileRoundTrip`, `PcapReadable.FileDecides` and `PcapDatagrams.DatagramBack`.

## Model

| member | source | states |
|---|---|---|
| WholeValue.FieldRoundTrip | lib/aper/marshal.go:595-756 | For every type, parameters and value the two sides agree on where it stands, and before any later bits, the decoder returns the value and stops at exactly the bit where the encoder stopped, if and only if the last field does not start at the end of the data; it never does when anything follows |
| Exactness.ExactRoundTrip | lib/aper/aper.go:606-816 | Under tags both sides read alike, a value comes back with every part of it, fields, elements, counts, alternatives and the octets of open types, if and only if the two sides agree on it where it stands and its last field starts before the end of the data |
| Exactness.StringLost | lib/aper/aper.go:203-352 | A string whose length the two sides do not agree on never comes back with its length and its end |
| WholeValue.AgreesHere | lib/aper/marshal.go:595-756 | What the two sides agree on wherever it stands, they agree on where it is written |
| WholeValue.MessageRoundTrip | lib/aper/aper.go:863-874 | Unmarshal of what Marshal returns is the value, under the same if-and-only-if |
| WholeValue.PrefixFree | lib/aper/marshal.go:595-756 | No encoding of a type is a prefix of another value's encoding, so encodings are injective and self-delimiting |
| WholeValue.FieldBack | lib/aper/aper.go:606-816 | The induction: each field comes back, or the decoder refuses it because a later field would start at the end of data |
| WholeValue.SequenceBack | lib/aper/aper.go:684-795 | A SEQUENCE comes back: presence bits select the fields the encoder emitted, in order, with open-type references resolved to the same value on both sides |
| WholeValue.ChoiceBack | lib/aper/aper.go:740-752 | A CHOICE comes back with the alternative the encoder used |
| WholeValue.OpenTypeBack | lib/aper/aper.go:569-601 | An open type comes back from any outer bit position with the alternative that carries the reference value, and the outer cursor stops where the encoder did |
| WholeValue.InnerBack | lib/aper/marshal.go:552-594 | The octets of an open type, made independently of where they will stand, read back as the alternative's value |
| WholeValue.SliceBack | lib/aper/aper.go:482-528 | A SEQUENCE OF comes back: the count and then every element in order |
| WholeValue.BitStringBack | lib/aper/aper.go:203-284 | A BIT STRING field comes back as the same effective bits, whatever is past the last one |
| WholeValue.OctetStringBack | lib/aper/aper.go:285-352 | An OCTET STRING field comes back as the same octets |
| WholeValue.PrintableStringBack | lib/aper/aper.go:801-811 | A field of Go kind string comes back as the same octets |
| WholeValue.IntegerFieldBack | lib/aper/aper.go:371-460 | An INTEGER field comes back under its extension bit |
| WholeValue.EnumeratedFieldBack | lib/aper/aper.go:463-481 | An ENUMERATED field comes back under its extension bit |
| WholeValue.BoolBack | lib/aper/aper.go:354-369 | A BOOLEAN comes back |
| SolidTypes.SolidStart | lib/aper/aper.go:609-613 | In a type none of whose leaves can take no bits, the last field of any value starts before the value ends |
| SolidTypes.SolidRoundTrip | lib/aper/aper.go:606-816 | Values of such a type come back from any bit position, also at the very end of the data, with no condition on positions |
| SolidTypes.SolidMessage | lib/aper/aper.go:863-874 | Unmarshal of what Marshal returns is the value, for every message of such a type |
| SolidTypes.WrittenAndBack | lib/aper/aper.go:863-874 | Told from type, parameters and value alone, with no mention of what is encoded: such a message is written and Unmarshal gives it back |
| WritableValues.ValueWritten | lib/aper/marshal.go:595-756 | At any bit position, a value is written if and only if it fits its type, each leaf its parameters where it stands, and each open type its reference; and one that fits them with no place given is written anywhere |
| WritableValues.StringWritten | lib/aper/marshal.go:142-315 | At any bit position, exactly the string lengths that are written under a SIZE constraint; an empty string of fixed size at octet boundaries only |
| WritableValues.FragmentsWritten | lib/aper/marshal.go:196-228 | Without a lower bound content of any length is written |
| WritableValues.EnumeratedWritten | lib/aper/marshal.go:442-472 | Exactly the enumerations that are written |
| WritableValues.IndexWritten | lib/aper/marshal.go:534-550 | Exactly the CHOICE indices that are written |
| WritableValues.CountIsWritten | lib/aper/marshal.go:474-518 | Exactly the SEQUENCE OF counts that are written |
| CanonicalForms.ConstrainedCanonical | lib/aper/aper.go:135-167 | A constrained whole number has one encoding: nothing but what the encoder writes is accepted |
| CanonicalForms.AlignCanonical | lib/aper/aper.go:119-133 | Padding that the decoder skips is the encoder's |
| CanonicalForms.LengthCanonical | lib/aper/aper.go:169-201 | A length that the decoder accepts is the encoder's if and only if it does not take two octets for what one holds |
| CanonicalForms.IntegerCanonical | lib/aper/aper.go:371-460 | For any bounds, an INTEGER that the decoder accepts, under either extension bit, is the encoder's if and only if it is within its bounds, the bit is the one the encoder would choose, its octets are as many as the encoder counts and their count as wide as the encoder writes it, and no lower bound was added to two's complement |
| CanonicalForms.UnboundedCanonical | lib/aper/aper.go:393-460 | After a length octet: if and only if the length is the one the encoder takes for the value, and no lower bound was added to two's complement |
| CanonicalForms.MiscountedCanonical | lib/aper/aper.go:415-457 | Where the widths of the octet count differ: if and only if there is one octet, and padding before it |
| CanonicalForms.OutOfBoundsAccepted | lib/aper/aper.go:371-460 | The bits 111 under 0..5 are accepted as 7, which the encoder refuses |
| CanonicalForms.ExtendedWithinBounds | lib/aper/aper.go:371-460 | Any integer within its bounds is accepted under a set extension bit in the form without bounds, which is not what the encoder writes |
| CanonicalForms.EnumeratedCanonical | lib/aper/aper.go:463-481 | An ENUMERATED that the decoder accepts is the encoder's if and only if it is within the bounds, which the decoder does not look at |
| CanonicalForms.ChoiceIndexCanonical | lib/aper/aper.go:530-544 | The same of a CHOICE index, whose bound counts when the CHOICE is extensible |
| CanonicalForms.CountCanonical | lib/aper/aper.go:482-513 | A SEQUENCE OF count, under either extension bit, is the encoder's if and only if no error in reading it is pending and it is at least the lower bound, and above the upper one exactly under the set bit |
| CanonicalStrings.StringCanonical | lib/aper/aper.go:203-352 | A BIT STRING or OCTET STRING that the decoder accepts is the encoder's if and only if it is within its bounds, under the extension bit the encoder would choose, of a length that meets StringAgrees and, unless its size is fixed, in as few fragments and as short lengths as can be |
| CanonicalStrings.FragmentsCanonical | lib/aper/aper.go:246-282 | Fragments without a lower bound are the encoder's if and only if each length takes the fewest octets and each fragment with another after it is of 65536 units or the last but one |
| CanonicalStrings.FixedCanonical | lib/aper/aper.go:219-244 | A string of fixed size is always the encoder's |
| CanonicalValues.PartsCanonical | lib/aper/aper.go:606-816 | Of any input under tags both sides read alike: every part of what is read, fields, elements, alternatives and the octets of open types, is written where it stands as the bits it was read from, if and only if every part is canonical in the bits of its own |
| CanonicalValues.SequencePart | lib/aper/aper.go:684-795 | The bits of its own of a SEQUENCE are the encoder's if and only if its extension bit and all presence bits but the last 64 are clear |
| CanonicalValues.OpenTypePart | lib/aper/aper.go:569-601 | Those of an open type if and only if its octets are in as few fragments as can be and hold its value and zeros up to the next octet |
| CanonicalValues.SlicePart | lib/aper/aper.go:482-528 | Those of a SEQUENCE OF if and only if its count is |
| CanonicalValues.ReadAndBack | lib/aper/marshal.go:595-756 | Whatever input the decoder accepts, if it is canonical in every part, the value read is written back bit for bit |
| CanonicalValues.MessageReadAndBack | lib/aper/marshal.go:758-774 | Marshal of what Unmarshal returns is the message, for messages canonical in every part, if and only if nothing but zeros up to the next octet follows the value |
| CanonicalValues.WrittenIsCanonical | lib/aper/marshal.go:595-756 | What the encoder writes for a value the two sides agree on where it stands is canonical in every part |
| CanonicalValues.OneEncoding | lib/aper/aper.go:606-816 | Of the inputs that decode to an agreed value, what the encoder writes is the only one that starts with those bits |
| Coincidence.MisreadComesBack | lib/aper/aper.go:371-460 | A value that is written, comes back whole and is written again as it was, although the two sides do not agree on its first part, which is read from other bits: agreement is necessary part by part, not for the whole |
| SolidTypes.SolidOpenType | lib/aper/marshal.go:552-594 | An open type over such a type can be handled by both sides if and only if its octets meet FragmentsAgree |
| Shortfalls.LongStringVanishes | lib/aper/marshal.go:282-312 | Every OCTET STRING of 65536 octets is encoded as the empty one |
| Shortfalls.WholeFragmentOverBound | lib/aper/marshal.go:282-312 | 16385 octets under SIZE(1..MAX) are written, and no data that contains them gives them back with the cursor at their end |
| Shortfalls.SecondFragmentOverBound | lib/aper/marshal.go:282-312 | 16386 octets under SIZE(1..MAX) cannot be written |
| Shortfalls.BoundedStringCut | lib/aper/marshal.go:282-312 | 20000 octets under SIZE(0..65535) are written, and read back as their first 16384 |
| Shortfalls.FixedSizeIgnored | lib/aper/marshal.go:262-281 | One octet under SIZE(2) is written without an error, and never read back |
| Shortfalls.RepetitionPeriodWidths | lib/ngap/ngapType/RepetitionPeriod.go:5-7 | For 0..131071 the two sides give the octet count different widths |
| Shortfalls.OctetCountDoubled | lib/aper/aper.go:416-432 | 300 in 0..131071 is written at any bit position and comes back from no data that contains it |
| Shortfalls.OctetCountOverCapacity | lib/aper/marshal.go:403-424 | 70000 in 0..131071 cannot be written |
| Shortfalls.CountedForTheValue | lib/aper/marshal.go:377-437 | 0 above -1000 and 0 in -100000..100000 cannot be written |
| Shortfalls.LowerBoundAdded | lib/aper/aper.go:446-460 | 0 in -1..2^63-1 is written, and never read back |
| Shortfalls.SingleEnumeratedLost | lib/aper/aper.go:463-481 | ENUMERATED 1 in 1..1 takes no bits and is read as 0 |
| Shortfalls.CountWrapsToZero | lib/aper/marshal.go:474-518 | The count of 256 unbounded elements is the bits of the count of none |
| Shortfalls.TrailingConstantRefused | lib/aper/aper.go:609-613 | A message that encodes but whose decoding is refused: its last field has one possible value |
| RoundTrip.StringBack | lib/aper/marshal.go:142-315 | A BIT STRING or OCTET STRING under any size constraint both sides read alike comes back, with the cursor where the encoder stopped, if and only if its length meets StringAgrees |
| RoundTrip.FragmentsBack | lib/aper/aper.go:246-282 | Every content whose remaining length meets FragmentsAgree is reassembled by the decoder's loop exactly as the encoder's loop split it |
| RoundTrip.FragmentsLost | lib/aper/marshal.go:196-228 | For every other length the decoder never returns that many units, or more, and stops where the encoder did, whatever follows |
| RoundTrip.Overrun | lib/aper/marshal.go:196-228 | With a positive lower bound, a loop asked for more than the content holds never finishes: each fragment adds the bound again |
| RoundTrip.FixedBack | lib/aper/marshal.go:180-195 | A fixed-size string that was written comes back if and only if it has that size and is not empty; the short path writes any size |
| RoundTrip.LengthBack | lib/aper/aper.go:169-201 | A length determinant is read back from exactly the bits written, the repeat flag set exactly for the fragment forms |
| RoundTrip.ConstrainedBack | lib/aper/aper.go:135-167 | A constrained whole number is read back from exactly the bits written, at any bit position |
| RoundTrip.ValueBack | lib/aper/aper.go:72-88 | A number written in n bits is read back from n bits at the same offset |
| RoundTrip.AlignBack | lib/aper/aper.go:119-133 | The encoder's alignment padding is always accepted and skipped whole |
| IntegerRoundTrip.IntegerBack | lib/aper/marshal.go:329-439 | An INTEGER that was written comes back, in every form and over all of int64, with the cursor where the encoder stopped, if and only if its octet count is readable and no lower bound is added to a two's complement value |
| IntegerRoundTrip.MiscountedBack | lib/aper/aper.go:415-457 | In the two families of ranges where the widths differ, exactly which values still come back, depending on the bit position |
| IntegerRoundTrip.IntegerWritten | lib/aper/marshal.go:329-439 | Whatever the bounds and the bit position, exactly which integers are written: those within the bounds that fit the octets counted for them, and whose count fits its width |
| IntegerRoundTrip.AlwaysWritten | lib/aper/marshal.go:329-439 | Without bounds every integer is written, and every one within bounds no more than 65536 apart |
| IntegerRoundTrip.WrittenFromZero | lib/aper/marshal.go:403-424 | With lower bound zero, all integers when the two widths match, and exactly those whose octet count fits otherwise |
| IntegerRoundTrip.SignedOctetsMinimal | lib/aper/marshal.go:377-393 | The octet count of an unconstrained integer is the least number of two's complement octets that holds it |
| IntegerRoundTrip.UnsignedOctetsMinimal | lib/aper/marshal.go:386-393 | For ranges above 65536 the octet count is the least number of unsigned octets that holds the value, at least one |
| IntegerRoundTrip.OctetCountWidths | lib/aper/aper.go:416-432 | The widths the two loops give the octet count are equal outside two families of ranges and differ by exactly one bit inside them |
| IntegerRoundTrip.SignRecovered | lib/aper/aper.go:446-457 | Sign recovery inverts the encoder's masking for every int64 down to -2^63 |
| IntegerRoundTrip.EnumeratedBack | lib/aper/marshal.go:442-472 | An ENUMERATED that was written comes back if and only if its range has several values or it is zero |
| IntegerRoundTrip.ChoiceIndexBack | lib/aper/marshal.go:534-550 | A CHOICE index that was written comes back |
| IntegerRoundTrip.CountBack | lib/aper/marshal.go:474-518 | A SEQUENCE OF count that was written comes back if and only if it is bounded or below 256 |
| Encoding.WidthFrom | lib/aper/marshal.go:99-106 | The width is the least from i on whose power of two covers the range |
| Encoding.PutFragments | lib/aper/marshal.go:198-228 | What the fragment loop appends; it always extends the bits before it by something and terminates on the content left |
| Encoding.OctetsBound | lib/aper/marshal.go:388-393 | A number below 256 to the k takes at most k octets |
| Encoding.OptionalMonotone | lib/aper/marshal.go:647-668 | Each OPTIONAL field has its own presence bit, in field order |
| Decoding.GetField | lib/aper/aper.go:606-816 | On any input whatever, reading never moves the cursor backward or past the data |
| Decoding.GetFragments | lib/aper/aper.go:246-282 | On any input the fragment loop moves forward in every turn, ends, and never claims more units than its bytes hold |
| Decoding.MatchingAlternative | lib/aper/aper.go:721-730 | The first alternative carrying the reference value, and zero exactly when none does |
| PresenceMasks.MaskKeeps | lib/aper/marshal.go:656-661 | A 64-bit mask filled by shifting keeps exactly the last 64 flags |
| Bits.UnpackPack | lib/aper/marshal.go:9-12 | Packing bits into bytes and unpacking them is the identity |
| Bits.ToNatFromNat | lib/aper/marshal.go:63-88 | The low n bits of a number, read back, are the number modulo 2^n |
| BitCopy.GetBitString | lib/aper/aper.go:28-49 | Exactly the bits from the offset on, left-justified with zero padding; overflow and the panic on zero bits, each exactly when it happens |
| BitCopy.CopiedBits | lib/aper/aper.go:28-49 | Bytes that straddle two source bytes, the last one masked, hold exactly the run of bits |
| Aper.BitsValueAt | lib/aper/aper.go:72-88 | The number of the bits copied, modulo 2^64 |
| Marshal.HoldsSpilled | lib/aper/marshal.go:45-55 | A run shifted into a partly filled last byte and on into new ones appends exactly its bits |
| Marshal.HoldsFilled | lib/aper/marshal.go:41-44 | A run that fits the last byte appends exactly its bits |
| Marshal.AllPieces | lib/aper/marshal.go:63-88 | The octets peeled off a value from its low end hold its n bits |
| Marshal.CountOptional | lib/aper/marshal.go:647-668 | The count of OPTIONAL fields and the mask shifted together from those present |
| Marshal.MaskWritten | lib/aper/marshal.go:669-674 | Writing the mask writes the presence bits |
| Marshal.MarkTested | lib/aper/marshal.go:708-718 | Counting down through the mask tests the presence bits in field order |
| Marshal.RawBitData.BitCarry | lib/aper/marshal.go:24-26 | The bit offset modulo eight; the bytes are not touched |
| Marshal.RawBitData.AppendAlignBits | lib/aper/marshal.go:27-33 | The buffer now ends at an octet boundary, zeros added, earlier bits unchanged |
| Marshal.RawBitData.PutBitString | lib/aper/marshal.go:35-61 | At any bit offset the bits s become s followed by the given bits; unused low bits of the last byte stay zero |
| Marshal.RawBitData.PutBitsValue | lib/aper/marshal.go:63-88 | Appends the value in n bits and fails exactly when it needs more |
| Marshal.RawBitData.AppendConstraintValue | lib/aper/marshal.go:90-120 | Appends the constrained whole number, or its error |
| Marshal.RawBitData.AppendLength | lib/aper/marshal.go:122-140 | Appends the length determinant, or its error |
| Marshal.RawBitData.AppendFragments | lib/aper/marshal.go:196-228 | The loop appends what PutFragments says, earlier bits unchanged |
| Marshal.RawBitData.AppendSizeForm | lib/aper/marshal.go:142-172 | The size range, bound and extension bit of a string |
| Marshal.RawBitData.AppendBitString | lib/aper/marshal.go:142-231 | Appends a BIT STRING, masking the caller's last byte in place to its effective bits |
| Marshal.RawBitData.AppendOctetString | lib/aper/marshal.go:233-315 | Appends an OCTET STRING, or its error |
| Marshal.RawBitData.AppendFixed | lib/aper/marshal.go:180-195 | Appends a fixed-size string; a wrong size is an error only on the long path |
| Marshal.RawBitData.AppendBool | lib/aper/marshal.go:317-327 | Appends one bit |
| Marshal.RawBitData.AppendInteger | lib/aper/marshal.go:329-439 | Appends an INTEGER in the form its bounds and value choose, or its error |
| Marshal.RawBitData.CountOctets | lib/aper/marshal.go:377-393 | The loop counts the octets of the value, at least one |
| Marshal.RawBitData.CountWidth | lib/aper/marshal.go:404-420 | The two loops give the width of the octet count |
| Marshal.RawBitData.AppendRawInteger | lib/aper/marshal.go:394-437 | Appends the octet count and then the octets |
| Marshal.RawBitData.AppendEnumerated | lib/aper/marshal.go:442-472 | Appends an ENUMERATED, or its error |
| Marshal.RawBitData.AppendChoiceIndex | lib/aper/marshal.go:534-550 | Appends a CHOICE index, or its error |
| Marshal.RawBitData.AppendCount | lib/aper/marshal.go:474-517 | Appends a SEQUENCE OF count, one octet when unbounded, or its error |
| Marshal.RawBitData.ParseSequenceOf | lib/aper/marshal.go:474-532 | Appends the count and every element in order, under the tag without its three size members (`TypeLayouts.SliceLayout`) |
| Marshal.RawBitData.AppendOpenType | lib/aper/marshal.go:552-594 | Encodes the alternative into a buffer of its own and appends those octets in fragments |
| Marshal.RawBitData.MakeField | lib/aper/marshal.go:595-756 | Appends what PutField says for every type and value, the error exactly when it says so, earlier bits unchanged |
| Marshal.RawBitData.MakeChoice | lib/aper/marshal.go:676-705 | Appends a CHOICE or an open type, or its error |
| Marshal.RawBitData.MakeSequence | lib/aper/marshal.go:631-743 | Appends the extension bit, the presence bits and the fields present |
| Marshal.MarshalWithParams | lib/aper/marshal.go:765-774 | The octets of a whole message, one zero octet when it is empty |
| Aper.BitData.BitCarry | lib/aper/aper.go:90-93 | The cursor is normalised without moving |
| Aper.BitData.GetBitString | lib/aper/aper.go:95-106 | Reads the bits at the cursor and moves it past them, or fails where it stands |
| Aper.BitData.GetBitsValue | lib/aper/aper.go:108-117 | Reads a number at the cursor |
| Aper.BitData.ParseAlignBits | lib/aper/aper.go:119-133 | Skips to an octet boundary and refuses padding that is not zero |
| Aper.BitData.ParseConstraintValue | lib/aper/aper.go:135-167 | Reads a constrained whole number |
| Aper.BitData.ParseLength | lib/aper/aper.go:169-201 | Reads a length determinant and whether fragments follow |
| Aper.BitData.ParseFragment | lib/aper/aper.go:247-281 | Reads one fragment; a BIT STRING steps back onto its last partial octet |
| Aper.BitData.ParseFragments | lib/aper/aper.go:246-282 | The loop joins fragments as GetFragments says |
| Aper.BitData.ParseFixed | lib/aper/aper.go:219-244 | Reads a fixed-size string |
| Aper.BitData.ParseString | lib/aper/aper.go:203-352 | Reads a BIT STRING or OCTET STRING under its constraint |
| Aper.BitData.ParseBool | lib/aper/aper.go:354-369 | Reads a BOOLEAN |
| Aper.BitData.ParseInteger | lib/aper/aper.go:371-460 | Reads an INTEGER in the form its bounds choose, or the error |
| Aper.BitData.CountWidth | lib/aper/aper.go:416-432 | The decoder's loops give the width of the octet count |
| Aper.BitData.ParseEnumerated | lib/aper/aper.go:463-481 | Reads an ENUMERATED |
| Aper.BitData.ParseChoiceIndex | lib/aper/aper.go:530-544 | Reads a CHOICE index |
| Aper.BitData.ParseCount | lib/aper/aper.go:482-513 | Reads a SEQUENCE OF count, keeping an error pending as the code does |
| Aper.BitData.ParseSequenceOf | lib/aper/aper.go:482-528 | Reads the count and every element, under the tag without its three size members (`TypeLayouts.SliceReadLayout`) |
| Aper.BitData.ParseField | lib/aper/aper.go:606-682 | Reads a field of any type: value, error and final cursor as GetField says, the cursor valid whatever the input |
| Aper.BitData.ParseMask | lib/aper/aper.go:687-710 | Reads the presence mask; testing it is testing the presence bits |
| Aper.BitData.ParseSequence | lib/aper/aper.go:684-795 | Reads the fields the presence bits select, in order |
| Aper.BitData.ParseChoice | lib/aper/aper.go:712-755 | Reads a CHOICE or an open type |
| Aper.BitData.ParseOpenType | lib/aper/aper.go:569-601 | Reads the fragments of an open type and decodes them on their own |
| Aper.UnmarshalWithParams | lib/aper/aper.go:869-874 | The value of a whole message, or the error |
| Ngap.NgapRoundTrip | lib/ngap/ngap.go:12-22 | Every NGAP message of any kind, procedure code, criticality and body whose octets both sides can handle is encoded, and decoded to itself, with no condition on its end |
| Ngap.ShortLayout | lib/ngap/ngapType/InitiatingMessage.go:5-9 | The octets of a message with a body of at most 127 octets: kind, procedure code, criticality, length, body |
| Ngap.SmallestMessage | lib/ngap/ngap.go:20-22 | A well-formed message of each kind and criticality and its five literal octets, for every procedure code |
| Ngap.PduPut | lib/ngap/ngapType/NGAPPDU.go:13-18 | A PDU is an extension bit, a two-bit kind and its message |
| Ngap.MessagePut | lib/ngap/ngapType/SuccessfulOutcome.go:5-9 | A message is its aligned procedure code, its criticality and the fragments of its body, which starts before the end of the data |
| Ngap.ResolvedParams | lib/aper/marshal.go:720-736 | The body's reference value resolves to the procedure code inside the first field's struct |
| Ngap.UnboundedPut | lib/aper/marshal.go:563-592 | Open-type content of any length can be written |
| Ngap.Encoder | lib/ngap/ngap.go:20-22 | The octets of a PDU, or the error |
| Ngap.Decoder | lib/ngap/ngap.go:13-18 | The PDU of some octets, or the error |
| Gf256.AffineUnaffine | lib/aes/aes.go:271-336 | The affine step of the S-box and its inverse undo each other |
| AesTables.EntriesAreRight | lib/aes/aes.go:3-336 | All 1280 table entries: Te4 repeats the S-box, Te0 is its MixColumns column, Te1 to Te3 that column rotated, and the S-box inverts in GF(2^8) up to its affine step |
| AesTables.SBoxIsAffineInverse | lib/aes/aes.go:271-336 | The S-box is the affine image of the multiplicative inverse, section 5.1.1 of FIPS 197 |
| AesCipher.ScheduleIsExpansion | lib/aes/aes.go:375-528 | The recurrence of section 5.2 of FIPS 197 has one solution, the expansion |
| Aes.TSubIs | lib/aes/aes.go:659-669 | Masking four Te4 entries and adding them is SubWord of the four bytes |
| Aes.ColumnRefined | lib/aes/aes.go:551-554 | The four lookups of a column are SubBytes and MixColumns of the bytes ShiftRows brings together |
| Aes.MixedState | lib/aes/aes.go:551-554 | A table round before its key is MixColumns of ShiftRows of SubBytes |
| Aes.ShiftedState | lib/aes/aes.go:659-669 | The last table round before its key is ShiftRows of SubBytes |
| Aes.RoundsRefined | lib/aes/aes.go:544-620 | For every block, every round-key array and every number of rounds, the table rounds refine the textbook rounds |
| Aes.LastRefined | lib/aes/aes.go:659-669 | The last table round refines the textbook's |
| Aes.PutU32 | lib/aes/aes.go:356-361 | Four bytes, high end first, the rest unchanged; GETU32 reads the word back |
| Aes.TableRound | lib/aes/aes.go:551-554 | One unrolled round |
| Aes.Unrolled | lib/aes/aes.go:550-620 | The whole unrolled sequence of 9, 11 or 13 rounds |
| Aes.AesEncrypt | lib/aes/aes.go:530-670 | For 10, 12 and 14 rounds and every key array and block, the output is the cipher of section 5.1 of FIPS 197 on the old input, also when the two buffers are one; nothing past 16 bytes changes |
| AesSchedule.RconIsPower | lib/aes/aes.go:338-343 | The ten constants are the powers of x |
| AesSchedule.FourMore | lib/aes/aes.go:389-393 | The first four words of a turn continue the recurrence for any key length |
| AesSchedule.Slide128 | lib/aes/aes.go:387-401 | The 128-bit loop writes 44 words of the schedule and nothing past them |
| AesSchedule.Slide192 | lib/aes/aes.go:429-447 | The 192-bit loop writes 52 words |
| AesSchedule.Slide256 | lib/aes/aes.go:477-497 | The 256-bit loop writes 60 words |
| AesSchedule.AesSetupEnc | lib/aes/aes.go:375-528 | The whole FIPS 197 schedule of a 128, 192 or 256-bit key, nothing past it, the number of rounds, and zero for any other size |
| AesSchedule.BufferFits | lib/milenage/milenage.go:10-12 | rtLength is exactly the number of words the schedule has |
| MilenageFunctions.Agreement | lib/milenage/milenage.go:281-312 | For every K, OPc, RAND, AMF and pair of SQNs, the subscriber accepts the network's token if and only if the network's SQN is larger and has the same first byte, and otherwise asks to resynchronise |
| MilenageFunctions.CheckOutcome | lib/milenage/milenage.go:418-526 | What each return code says of any token: -2 exactly when its SQN is not ahead, 0 exactly when it is ahead and the token is the network's own or its MAC differs in the first byte, -1 otherwise |
| MilenageFunctions.Resynchronised | lib/milenage/milenage.go:324-356 | The network accepts the subscriber's AUTS and recovers exactly its SQN |
| MilenageFunctions.AutsGenuine | lib/milenage/milenage.go:324-356 | An AUTS is accepted if and only if it is the one the subscriber makes for the SQN in it, with 0, and refused with -1 otherwise |
| MilenageFunctions.MemCmpOrders | lib/milenage/milenage.go:539-551 | os_memcmp agrees with the order of the numbers exactly when the first bytes are equal, and is zero otherwise |
| MilenageFunctions.FirstByteIgnored | lib/milenage/milenage.go:539-551 | A network SQN ahead of the subscriber in its first byte is answered with -2 |
| MilenageFunctions.WrongMacAccepted | lib/milenage/milenage.go:418-526 | With an SQN that is ahead, any MAC that differs from the right one in its first byte is answered with 0, though the token is not the network's own |
| MilenageFunctions.FirstDifferenceOrders | lib/milenage/milenage.go:539-551 | The first difference decides the order of two big-endian numbers |
| Milenage.Aes128EncryptBlock | lib/milenage/milenage.go:14-24 | One block of the textbook cipher under the expanded key, in place or not |
| Milenage.Output1 | lib/milenage/milenage.go:51-104 | OUT1 of TS 35.206 |
| Milenage.MilenageF1 | lib/milenage/milenage.go:51-114 | MAC-A and MAC-S, or as much as fits, into the buffers given, nil or not, the rest of each unchanged; of one buffer given for both, the second wins |
| Milenage.Output | lib/milenage/milenage.go:192-206 | OUT2 to OUT5 of TS 35.206, for any rotation and constant, in place for f5* |
| Milenage.MilenageF2345 | lib/milenage/milenage.go:128-279 | RES, CK, IK, AK and the resynchronisation AK, RES and AK as far as they fit, each in its buffer with the rest unchanged unless another result was given the same buffer; f5* is written last |
| Milenage.OsMemcmp | lib/milenage/milenage.go:539-551 | The signed index of the first difference |
| Milenage.MilenageGenerate | lib/milenage/milenage.go:281-312 | The token, and the keys and response each in its buffer unless it shares one, token and response as far as they fit; or nothing at all when the response length is too short |
| Milenage.MilenageAuts | lib/milenage/milenage.go:324-356 | The SQN and the verdict on an AUTS |
| Milenage.MilenageCheck | lib/milenage/milenage.go:418-526 | The return code; the keys and response, each in its buffer unless it shares one; an AUTS exactly when the code is -2; response and AUTS as far as they fit |
| Milenage.Session | lib/milenage/milenage.go:281-526 | The two sides run against each other on buffers of their own: the verdict for every pair of SQNs, the same RES, CK and IK whatever the verdict, and after a resynchronisation exactly the subscriber's SQN |
| Milenage.Resynchronise | lib/milenage/milenage.go:324-356 | The network accepts the subscriber's AUTS and recovers its SQN, through the buffers |
| Milenage.Challenger | lib/milenage/milenage.go:281-312 | The token and keys of the network's side |
| Milenage.Subscriber | lib/milenage/milenage.go:418-526 | The verdict, keys and answer of the subscriber's side |
| Milenage.MilenageOpc | lib/milenage/milenage.go:528-536 | OPc from OP; of one buffer given for both, zero bytes |
| PcapRoundTrip.FileRoundTrip | internal/webserver/diagnostics_handler.go:1308-1604 | Before its last filter the reader finds everything captured into a file, in order, with times, addresses, ports, protocol, frame and exactly the payload handed to the NGAP decoder, if and only if each simulated SCTP payload has at most 65516 bytes, each frame fits its length field, and a walk from chunk header to chunk header gets through each received SCTP packet; what is expected of a received packet is what the reader makes of that packet by itself, for which `PcapReadable.ReceivedBack` has an independent reference where it is a well-formed datagram |
| PcapReadable.FileDecides | internal/webserver/diagnostics_handler.go:1308-1612 | Reading any file, whoever wrote it, ends without a slice out of range if and only if its record, frame and chunk headers are such: no frame of 14 or 16 bytes with an ether type at its end, and no chunk that RunsPast or StaysInPlace |
| PcapReadable.FrameDecides | internal/webserver/diagnostics_handler.go:219-279 | The same of one frame |
| PcapReadable.PacketPoisons | internal/webserver/diagnostics_handler.go:1345-1590 | One received packet the reader cannot get past takes the whole file with it, wherever in the file it is |
| PcapReadable.LongestChunkCaptured | internal/webserver/diagnostics_handler.go:1580-1584 | Such a packet: its one chunk has a length of all ones, and the file is never read to the end |
| PcapReadable.ShortDataCaptured | internal/webserver/diagnostics_handler.go:1562-1568 | Another: a DATA chunk of length 8 with the NGAP payload protocol, and a slice out of range |
| PcapReadable.ReceivedBack | internal/webserver/diagnostics_handler.go:1351-1590 | A received datagram that is well formed is recoverable, and is shown as what its fields say |
| PcapReadable.ShownExactly | internal/webserver/diagnostics_handler.go:1606-1612 | When all frames fit, a file is shown as the filter leaves it if and only if all its captures are recoverable |
| PcapDatagrams.DatagramBack | internal/webserver/diagnostics_handler.go:1351-1590 | A datagram of either version, with any options and any TCP, UDP, SCTP, ICMP or other content, is shown with the addresses, ports and user data it was made of, and with the label that literal ports and first bytes give it |
| PcapDatagrams.SegmentBack | internal/webserver/diagnostics_handler.go:1378-1589 | The same of what follows the IP header |
| PcapChunks.ChunksBack | internal/webserver/diagnostics_handler.go:1548-1587 | However many chunks a packet bundles, exactly the user data of those for NGAP is handed over, in order |
| PcapChunks.WalkDecides | internal/webserver/diagnostics_handler.go:1554-1585 | On any bytes, the chunk loop slices out of range, never ends, or hands over its payloads as a walk over the chunk headers says |
| PcapChunks.ShortDataChunk | internal/webserver/diagnostics_handler.go:1562-1568 | Sixteen bytes on which it slices out of range |
| PcapChunks.LongestChunk | internal/webserver/diagnostics_handler.go:1580-1584 | Four bytes on which it never ends |
| PcapRoundTrip.FileShown | internal/webserver/diagnostics_handler.go:1606-1612 | What the reader shows of a file of recoverable captures is what the filter keeps of it, and a simulated packet that is to be kept is shown so only if it is recoverable, whatever the others are |
| PcapRoundTrip.SctpShown | internal/webserver/diagnostics_handler.go:1308-1612 | Of simulated SCTP packets the filter drops nothing: all are shown if and only if all payloads have at most 65516 bytes and all frames fit |
| PcapRoundTrip.Reencapsulated | internal/webserver/diagnostics_handler.go:488-502 | A frame of any link layer the guesses know, put into an Ethernet frame by the capture loop, shows the same as it would have itself, outcome included, but for its raw bytes |
| PcapRoundTrip.CutFile | internal/webserver/diagnostics_handler.go:1325-1349 | A file that ends inside a record has every event before it |
| PcapRoundTrip.FrameIsEthernet | internal/webserver/diagnostics_handler.go:207-279 | Any packet whose version is that of its ether type, once wrapped, is taken for Ethernet and for nothing else, and unwraps to itself |
| PcapRoundTrip.IpLayer | internal/webserver/diagnostics_handler.go:1351-1378 | Protocol, addresses and what follows the IP header come back |
| PcapRoundTrip.PortsBack | internal/webserver/diagnostics_handler.go:95-119 | The ports come back for UDP, TCP and SCTP |
| PcapRoundTrip.TransportBack | internal/webserver/diagnostics_handler.go:1378-1589 | Ports, protocol label and NGAP payload come back from the transport layer the writer built |
| PcapRoundTrip.ChunkBack | internal/webserver/diagnostics_handler.go:1548-1587 | The chunk loop hands over exactly the payload, once, and ends |
| PcapRoundTrip.LongestPayload | internal/webserver/diagnostics_handler.go:1554-1585 | For payloads of 65517 to 65519 bytes the chunk loop never ends: the aligned length wraps to zero |
| PcapRoundTrip.EventsLimited | internal/webserver/diagnostics_handler.go:1325-1590 | In any file whatever, no payload handed over is longer than 65516 bytes and no frame longer than its length field allows |
| PcapFormat.NgapPayloads | internal/webserver/diagnostics_handler.go:1554-1585 | No payload handed over, from any bytes, is longer than 65516 bytes |
| PcapFormat.ParsePacket | internal/webserver/diagnostics_handler.go:219-279 | A start inside the data where the IP version is that of the ether type; a panic only at 14 or 16 bytes; and nothing found only where no version nibble stands at the front of 20 bytes |
| PcapFormat.FirstGuess | internal/webserver/diagnostics_handler.go:219-279 | The layer found is that of the first guess, of five in the order of the code, whose header announces the packet that stands behind it |
| PcapFormat.NoGuess | internal/webserver/diagnostics_handler.go:219-279 | None is found if and only if no guess does |
| PcapFormat.AlignedLen | internal/webserver/diagnostics_handler.go:1580 | The 16-bit rounding: zero exactly at zero and above 65532, else the next multiple of four |
| PcapFormat.RecordsSnoc | internal/webserver/diagnostics_handler.go:122-133 | One more capture appends one record |
| PcapFormat.Filtered | internal/webserver/diagnostics_handler.go:1606-1611 | Exactly the events of the four protocols, and all when all are |
| Pcap.CaptureManager.WriteSimulatedPacket | internal/webserver/diagnostics_handler.go:75-134 | While capturing, the current file holds one more packet and the counters count it; otherwise nothing changes |
| Pcap.CaptureManager.Receive | internal/webserver/diagnostics_handler.go:475-515 | One turn of the capture loop: a packet of a known layer whose protocol number the filter names, or any under "all" or none, goes into the current file and is counted, and no other does; it panics exactly where the layer guess does |
| Pcap.CaptureManager.Start | internal/webserver/diagnostics_handler.go:361-463 | A file of that name with nothing in it and the counters at zero; unless a capture is under way, or the file or the socket cannot be had, when the file of that name is left or removed |
| Pcap.CaptureManager.Stop | internal/webserver/diagnostics_handler.go:519-544 | Capturing ends and every file stays as it is |
| Pcap.CaptureManager.Delete | internal/webserver/diagnostics_handler.go:652-687 | Any file but the one being captured into goes, and no other |
| Pcap.CaptureManager.Recovers | internal/webserver/diagnostics_handler.go:1308-1612 | After any run of starts, stops, deletions, simulated and received packets, every file reads back as what was captured into it, in the sense of FileRoundTrip and under the same if-and-only-if, and shows what the filter keeps of it |
| Pcap.CaptureManager.OnlyFiltered | internal/webserver/diagnostics_handler.go:281-305 | What a received packet in the current file shows has a protocol number the filter lets through: 1 under "icmp", 6 under "tcp", 17 under "udp", 132 under "sctp", in any case of letters |
| Pcap.WritePcapGlobalHeader | internal/webserver/diagnostics_handler.go:180-191 | The 24 bytes of the global header |
| Pcap.WritePcapPacketHeader | internal/webserver/diagnostics_handler.go:193-205 | The 16 bytes of a record header |
| Pcap.WrapInEthernet | internal/webserver/diagnostics_handler.go:207-217 | The frame round its data |
| Pcap.BuildFrame | internal/webserver/diagnostics_handler.go:83-125 | The whole frame of a packet |
| Pcap.ScanChunks | internal/webserver/diagnostics_handler.go:1554-1585 | The chunk loop, proved against NgapPayloads; it ends on every input but where the list stays in place |
| Pcap.ReadFrame | internal/webserver/diagnostics_handler.go:1351-1590 | One record's event |
| Pcap.ReadTransport | internal/webserver/diagnostics_handler.go:1378-1589 | The switch over the IP protocol, with its labels, proved against TransportEvent |
| Pcap.ParseRecords | internal/webserver/diagnostics_handler.go:1308-1604 | The record loop on any file, both byte orders, proved against FileEvents |
| Pcap.FilteredSnoc | internal/webserver/diagnostics_handler.go:1606-1611 | The filter keeps order and looks at one event at a time |
| Pcap.ParsePcapEvents | internal/webserver/diagnostics_handler.go:1308-1612 | The record loop and the last filter on any file, proved against ShownEvents |
| References.FieldParameters | lib/aper/marshal.go:719-737 | The search for the field an open type refers to, which aper.go:768-786 repeats: the tag of the field, with the reference value filled in, or the error |
| References.Resolved | lib/aper/marshal.go:719-737 | An open type is given the integer in the first field of the name it refers to; no other member of its tag changes; a pointer or an absent field is refused |
| References.Unnamed | lib/aper/marshal.go:728-731 | It is refused as unresolved exactly when none of the fields before it has that name |
| References.ReferredTo | lib/aper/aper.go:545-568 | The integer referred to is the field's own, that of the first field of a SEQUENCE or that of the alternative of a CHOICE |
| Layouts.NumberBits | lib/aper/marshal.go:63-88 | Numbers are written with the most significant bit first |
| Layouts.ByteBits | lib/aper/aper.go:28-70 | So are octets, one after another |
| Layouts.AlignLayout | lib/aper/marshal.go:27-33 | Padding is the zeros up to the next octet boundary, none on one |
| Layouts.ConstrainedLayout | lib/aper/marshal.go:90-120 | Up to 255 values take the fewest bits that number them, 256 one aligned octet, up to 65536 two; more values, a negative range and a value over the width have each their error |
| Layouts.LengthLayout | lib/aper/marshal.go:122-140 | An unconstrained length is one aligned octet below 128, two marked 10 below 16384, and one of 193 to 196 for one to four fragments |
| Layouts.ShortContent | lib/aper/marshal.go:282-315 | Contents of up to 16383 octets are their length and themselves |
| Layouts.LongContent | lib/aper/marshal.go:282-315 | From 16384 octets on the largest multiple of 16384 up to 65536 comes first, marked with how many, and the rest after it as contents of its own |
| Layouts.FixedOctets | lib/aper/marshal.go:267-281 | An OCTET STRING of a fixed size is its octets alone, aligned from three on, after the extension bit |
| Layouts.BoundedOctets | lib/aper/marshal.go:233-315 | Of bounded size it is the length above the lower bound in as few bits as the range needs, and the aligned octets |
| Layouts.OverBound | lib/aper/marshal.go:236-261 | Over its upper bound it is refused, or written with the extension bit set and without bounds |
| Layouts.FixedBits | lib/aper/marshal.go:180-195 | A BIT STRING of a fixed size is its bits alone, aligned from seventeen on |
| Layouts.BoundedBits | lib/aper/marshal.go:142-231 | Of bounded size it is the length above the lower bound and the aligned bits |
| ValueLayouts.SmallRangeInteger | lib/aper/marshal.go:329-384 | An INTEGER of up to 65536 values is its offset as a constrained whole number, and nothing when there is one value |
| ValueLayouts.LargeRangeInteger | lib/aper/marshal.go:385-437 | Of more values it is an octet count of one, two or three bits by literal ranges, and the offset in the octets counted; over capacity otherwise |
| ValueLayouts.UnconstrainedInteger | lib/aper/marshal.go:376-437 | Without a lower bound it is a length octet and the fewest octets of two's complement |
| ValueLayouts.SemiConstrainedInteger | lib/aper/marshal.go:376-437 | With a lower bound alone it is the octet count of the value itself and its offset, when that fits |
| ValueLayouts.OutOfRangeInteger | lib/aper/marshal.go:331-360 | Below its range an INTEGER is refused, above it refused or written as without bounds after a set extension bit |
| ValueLayouts.EnumeratedLayout | lib/aper/marshal.go:442-472 | An enumeration is its value in the range's bits, not its offset, with an error for each way to be out of bounds |
| ValueLayouts.ChoiceIndexLayout | lib/aper/marshal.go:534-550 | A CHOICE index is counted from zero in a range of one more than the upper bound |
| ValueLayouts.CountLayout | lib/aper/marshal.go:474-521 | A SEQUENCE OF count is constrained below 65536, absent when fixed, one aligned octet otherwise, with its errors |
| TypeLayouts.SliceLayout | lib/aper/marshal.go:474-532 | A list is written to certain bits if and only if those are its count followed by each element in order, each written under the list's tag with its three size members cleared and all seven others kept |
| TypeLayouts.SliceReadLayout | lib/aper/aper.go:482-528 | A list is read to a value and a place if and only if its count and then each element are, in order, under the same tag |
| TypeLayouts.SequenceLayout | lib/aper/marshal.go:631-743 | A SEQUENCE is written to certain bits if and only if those are its clear extension bit, one bit for each OPTIONAL field in order, and the fields in order, absent ones without a bit |
| TypeLayouts.ChoiceLayout | lib/aper/marshal.go:696-703 | A CHOICE is its clear extension bit, the index, and the alternative under its own tag |
| TypeLayouts.OpenTypeLayout | lib/aper/marshal.go:683-695 | An open type is the alternative's own bits filled up with zeros to octets, after their length; another reference value than the alternative's is refused |
| TypeLayouts.MessageLayout | lib/aper/marshal.go:765-775 | A message is its value's bits filled up with zeros, and one zero octet when there are none |
| TypeLayouts.ListExample | lib/aper/marshal.go:474-532 | A list of one extensible item with the flag set, sizes 1..2, is the bits 0, 0, 1 |
| TypeLayouts.SequenceExample | lib/aper/marshal.go:631-743 | An extensible sequence with an absent last field is its five literal bits |
| TypeLayouts.ChoiceExample | lib/aper/marshal.go:696-703 | The third of four alternatives of an extensible choice is its four literal bits |
| ReadLayouts.NumberRead | lib/aper/aper.go:72-117 | Up to 64 bits are read as the number they are; none, or more than there are, is an error that leaves the cursor |
| ReadLayouts.AlignRead | lib/aper/aper.go:119-133 | Padding is accepted exactly when it is zeros |
| ReadLayouts.ConstrainedRead | lib/aper/aper.go:135-167 | A constrained whole number is whatever its bits hold, in the range or not |
| ReadLayouts.LengthRead | lib/aper/aper.go:169-201 | Every first octet of a length: seven bits, fourteen, one to four fragments, or refused |
| ReadLayouts.OctetsRead | lib/aper/aper.go:323-352 | A fragment of octets: nothing of zero length, otherwise aligned and wholly there or refused |
| ReadLayouts.StringBounds | lib/aper/aper.go:285-298 | Which bounds a string is read under: none once extended, none above 65535, a fixed size without a length |
| ReadLayouts.FixedRead | lib/aper/aper.go:302-322 | A fixed size is read from the cursor up to two octets and aligned from three on |
| ReadLayouts.IntegerOctetsRead | lib/aper/aper.go:445-460 | The octets of an INTEGER are two's complement without a lower bound and an offset with one; none is a panic |
| ReadLayouts.IntegerRead | lib/aper/aper.go:371-414 | An INTEGER of up to 65536 values is a constrained whole number above the lower bound, and has no bits when there is one; extended, it has no bounds |
| ReadLayouts.LargeIntegerRead | lib/aper/aper.go:415-443 | Of more values its octet count takes two bits up to 2^32 of them and three above |
| ReadLayouts.UnboundedIntegerRead | lib/aper/aper.go:395-406 | Without an upper bound its octet count is an aligned octet |
| ReadLayouts.EnumeratedRead | lib/aper/aper.go:463-481 | An enumeration is what its bits hold, zero when it has one name; an extension is refused |
| ReadLayouts.ChoiceIndexRead | lib/aper/aper.go:530-543 | A CHOICE index is one more than what its bits hold; an extension is refused |
| ReadLayouts.CountRead | lib/aper/aper.go:482-515 | A count in each form, and the lower bound with the error put off when its own bits are missing |
| ReadLayouts.FieldRead | lib/aper/aper.go:606-637 | Which extension bits are read before a value, in which order, and that nothing is read at the end of the data |
| ReadLayouts.SequenceReadLayout | lib/aper/aper.go:684-792 | A SEQUENCE is read to a value and a place if and only if its presence bits stand there and the fields they mark follow in order |
| ReadLayouts.ChoiceReadLayout | lib/aper/aper.go:740-753 | A CHOICE is read as its index and the alternative under its own tag, with the errors of an index that cannot be read or is too big |
| ReadLayouts.OpenTypeReadLayout | lib/aper/aper.go:712-739 | An open type is the first alternative with the reference value, read from octets of its own, and the cursor goes past all of them |
| SolidTypes.SolidKinds | lib/aper/aper.go:609-613 | Which types are solid: strings, flags, numbers with more than one value, and what is made of solid types |
| AesVectors.Schedule128 | lib/aes/aes.go:387-405 | All 44 words of the schedule in appendix A.1 of FIPS 197 |
| AesVectors.Schedule192 | lib/aes/aes.go:429-450 | The first twelve words of appendix A.2 |
| AesVectors.Schedule256 | lib/aes/aes.go:477-498 | The first sixteen words of appendix A.3, with the substitution in the middle of a turn |
| AesVectors.CipherExample | lib/aes/aes.go:530-670 | The block of appendix B of FIPS 197, through its ten rounds |
| MilenageFunctions.MemCmpIs | lib/milenage/milenage.go:539-551 | os_memcmp returns the index of the first difference, negative when the first string is the smaller there |
| MilenageReference.F1IsReference | lib/milenage/milenage.go:51-126 | For every input f1 and f1* are the two halves of OUT1 as section 4.1 of TS 35.206 has it, with r1 = 64 and c1 = 0 |
| MilenageReference.F2F5AreReference | lib/milenage/milenage.go:152-179 | f2 and f5 are bits 64 to 127 and 0 to 47 of OUT2, with r2 = 0 and c2 = 1 |
| MilenageReference.F3IsReference | lib/milenage/milenage.go:191-206 | f3 is OUT3, with r3 = 32 and c3 = 2 |
| MilenageReference.F4IsReference | lib/milenage/milenage.go:220-235 | f4 is OUT4, with r4 = 64 and c4 = 4 |
| MilenageReference.F5StarIsReference | lib/milenage/milenage.go:249-264 | f5* is bits 0 to 47 of OUT5, with r5 = 96 and c5 = 8 |
| MilenageReference.AutnIsReference | lib/milenage/milenage.go:300-305 | AUTN is SQN under f5, AMF and f1 in that order |
| MilenageReference.AutsIsReference | lib/milenage/milenage.go:457-475 | AUTS is SQN under f5* and then f1* with an AMF of zero |
| PcapLabels.UdpLabels | internal/webserver/diagnostics_handler.go:1484-1518 | An if-and-only-if for each label of a UDP datagram: voice by ports 5004 and 5005, then XnAP by 58 4e, then RRC by 52 52 43, else UDP |
| PcapLabels.TcpLabels | internal/webserver/diagnostics_handler.go:1391-1483 | HTTP exactly by one of seven literal starts or one of nine ports, else TCP |
| PcapLabels.TcpHeader | internal/webserver/diagnostics_handler.go:1397-1401 | The payload of a segment begins after the words byte 12 counts, and a short header has none |
| PcapLabels.OtherLabels | internal/webserver/diagnostics_handler.go:1386-1589 | The labels of ICMP, SCTP, NGAP, other protocols and short headers |
| PcapLabels.HeaderNeeded | internal/webserver/diagnostics_handler.go:1358-1379 | A packet is shown exactly when it holds a whole IP header |
| PcapLabels.HeaderFields | internal/webserver/diagnostics_handler.go:1358-1379 | Protocol and addresses are shown from their literal places in either header |
| PcapLabels.SetupRequestShown | internal/webserver/diagnostics_handler.go:1517-1523 | The emulator's own RRCSetupRequest to port 9999 is labelled RRC |
| PcapLabels.LastFilter | internal/webserver/diagnostics_handler.go:1606-1611 | What is shown of a file is, in order, its events labelled NGAP, HTTP, XnAP or RRC |
| PcapLabels.FilterLets | internal/webserver/diagnostics_handler.go:290-305 | The capture filter lets through exactly 1, 6, 17 or 132 by one of four names in any case of letters, everything by "all" or nothing, and nothing by any other text |
| PcapLayout.GlobalHeaderBytes | internal/webserver/diagnostics_handler.go:180-191 | The 24 literal bytes of a file header |
| PcapLayout.UdpFileBytes | internal/webserver/diagnostics_handler.go:75-217 | A whole capture file of one UDP packet, byte for byte |
| PcapLayout.TcpHeaders | internal/webserver/diagnostics_handler.go:83-111 | The literal headers of a TCP packet |
| PcapLayout.SctpHeaders | internal/webserver/diagnostics_handler.go:83-122 | The literal headers of an SCTP packet with its DATA chunk |
| PcapLayout.DatagramBytes | internal/webserver/diagnostics_handler.go:1358-1379 | A received datagram without options is its fields in their order |
| PcapLayout.FirstFourBytes | internal/webserver/diagnostics_handler.go:1313-1323 | Which four first bytes open a file, and in which byte order its records are read |
| PcapLayout.TurnedRead | internal/webserver/diagnostics_handler.go:1313-1346 | The same records in the other byte order are the same events |

## Left out

- WholeValue.FieldRoundTrip: `AgreesAt` is necessary part by part (`Exactness.ExactRoundTrip`), not for the whole, and no condition on the whole is given that is: `Coincidence.MisreadComesBack` is a value that comes back with a part misread. `Agrees` asks for every bit position, `AgreesAt` for one; `IntegerRoundTrip.MiscountedBack` shows an INTEGER that comes back at some positions only.
- WholeValue.MessageRoundTrip: the same condition `AgreesAt`, at bit zero.
- CanonicalValues.ReadAndBack: canonical parts are necessary part by part (`CanonicalValues.PartsCanonical`), not for the whole (`Coincidence.MisreadComesBack`).
- PcapRoundTrip.FileRoundTrip: of a received packet that is no well-formed datagram, the expected event is the reader's own (`PcapFormat.IpEvent`); so is it in `Pcap.CaptureManager.Recovers`.
- AesVectors.Schedule192: the first turn of the example key; the others follow by the recurrence. So with `AesVectors.Schedule256`.
- TypeLayouts.SequenceLayout: up to 64 OPTIONAL fields; of more only the last 64 keep their presence bit (`PresenceMasks.MaskKeeps`). So with `ReadLayouts.SequenceReadLayout`.
- ReadLayouts.ChoiceReadLayout: alternatives none of which is OPTIONAL; the decoder reads a bit for each that is. So with `ReadLayouts.OpenTypeReadLayout`.
- SolidTypes.SolidRoundTrip: `Solid` is sufficient for the last field to start before the end, not necessary.
- Marshal.RawBitData.MakeField: a BIT STRING value is its list of effective bits, so padding bits in the caller's own bytes appear only in AppendBitString.
- Marshal.RawBitData.AppendBitString: the caller's Bytes are exactly as long as BitLength needs; of a longer slice the source appends every byte when the size is fixed above two octets.
- Marshal.RawBitData.PutBitString: source bytes have no set bits after the last one to append; every caller masks them or has none.
- Marshal.RawBitData.AppendFragments: the fragment loop that the source writes out for BIT STRING, OCTET STRING and open types is one method with a unit of one or eight bits; so is the decoder's.
- Aes.AesEncrypt: the four statements of an unrolled round are the method TableRound, called once for each round; the source repeats them.
- AesSchedule.AesSetupEnc: the window that slides along the array is an offset, and the three loops are methods; the first four words of a turn, alike in all three, are FourWords.
- Milenage.MilenageF2345: an output buffer may be given for several results, and then what is said of it is only what is written last; two slices of one array that overlap in part are not modelled, nor an output that shares memory with OPc, K or RAND, which are values.
- Milenage.MilenageF1: buffers that Go indexes are long enough, CK and IK for a block, an AUTS and f5* for six bytes; with shorter ones it panics.
- Pcap.ParsePcapEvents: what the NGAP decoder returns, the names, summaries and details of messages, and the roles of addresses.
- PcapRoundTrip.FileShown: a packet that the filter drops anyway need not be recoverable for the rest to be shown as expected when a frame does not fit its length field; when all fit, see `PcapReadable.ShownExactly`.
- PcapDatagrams.DatagramBack: extension headers of IPv6 are content like any other, as they are to the reader.
- Pcap.CaptureManager.WriteSimulatedPacket: file writes succeed; counters do not wrap at 64 bits; addresses are already parsed to four bytes or to none.
- Pcap.CaptureManager.Receive: one packet at a time, as the lock has it; the socket, the stop channel and a turn that outlives its capture are left out.
- Pcap.CaptureManager.Start: the request and its file name are already read; case folding of the filter is that of ASCII.
- Reflection, struct tags and interface values: a schema datatype takes their place; unexported fields are left out.
- Extension additions, extended CHOICE and ENUMERATED: the code rejects them.
- Slice capacity: a slice past the length is a panic; Go allows one up to the capacity.
- Negative SIZE bounds, and Go integers narrower than 64 bits as decoding targets.
- The state a buffer is left in after an error, beyond keeping the bits before it.
- `Gsm_milenage`, `InsertData` and the printing functions are not modelled.
- Files other than captures, locks, goroutines and HTTP handlers: input and output.
- Ngap.NgapRoundTrip: the message bodies are any types and values that meet `WellFormed`, not those of lib/ngap/ngapType one by one.
- Milenage.Session: the callers' own buffers; MilenageGenerate and MilenageCheck say what happens in any.
- NAS, key derivation by HMAC, the web server and the scenario runners.
