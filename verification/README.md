# libksi: a verified model of the KSI SDK

libksi is the C library for keyless signatures: it hashes documents into aggregation trees, extends
signatures through a calendar of hashes up to published roots, and carries everything as TLV
elements over HTTP. This project models the parts of version 3.2.2.0 on which the correctness of a
signature rests, and proves what they promise. `dafny verify dfyconfig.toml` checks all of it.

The code keeps the form of the source. What the source does by changing objects, buffers, lists and
bitmaps is a class or a method with a loop here, proved against a specification function; what holds
of that function is stated by lemmas beside it.

| files | component |
|---|---|
| Words, CalendarChain | highest-bit arithmetic on 64-bit words; the shape of a calendar chain and its aggregation time |
| Hashing, HashChain, AggregationChains | imprints, the hasher object, aggregation along a chain and along a list of chains |
| Tlv, TlvSerializer, TlvReader, TlvInteger, Utf8 | the TLV format, the backward serializer, framing of a stream, integers and strings |
| Template, TemplateSearch, TemplateAccepts, TemplateRoundTrip, TemplateExact, TemplateParsed, TemplateWire | the table-driven converter between objects and elements |
| KsiTemplates, CalendarObjects | the tables of calendar chains and publication records |
| List, ChainOrder, SignatureStream, Signature, SignatureEdits | the signature object and its base TLV while the signature is extended |
| Verification, Policy, SignatureVerification, SignatureBinding | the record of steps, the policy engine, the steps, and what an accepted signature is bound to |
| Base32, Crc32, Publication, PublicationsFile | publication strings and the publications file |
| HttpBody, HttpParser, HttpChunks, HttpFraming, HttpReexecution | the incremental body parser, how a body is delimited, and the bytes that the loop executes again |
| Slots, UrlParser, UrlGrammar, HttpUrl | the URL splitter |

## What was found

Each of these is proved, either as a lemma with the failing input or as the exact condition under
which the code does what its comments say.

- `HashChain.AlgorithmDeparture`: resetting a hasher keeps the algorithm it was opened with, so the
  algorithm that a left calendar link announces has no effect behind the first link.
- `HashChain.LevelCheckDeparture`: the check of a level correction reports an error and goes on; a
  later test stops the run for it, except for corrections above 0xff whose low 32 bits keep the level
  in range.
- `AggregationChains.EmptyChainBreaksTheLink`: an empty chain has no output hash, so at any position
  the input hash of the next chain is compared with nothing exactly if the chain is empty;
  `AggregationChains.ChainsComposeExact` shows that the lists without empty chains are the ones whose
  prefixes all compose. The template asks for a link (tlv_template.c:120-121), so such a chain does not
  come from bytes but only from a program that calls `KSI_AggregationHashChain_setChain`.
- `SignatureBinding.ParanoidIgnoresTime`: no entry of the paranoid policy compares the stated
  aggregation time with the shape of the calendar chain.
- `Tlv.RoundTrip`: a payload of 0x10000 bytes passes the serializer, and its length field becomes 0.
- `TlvSerializer.CloneAgreement`: a clone is expanded one level only.
- `TemplateExact.CopyExact`: construction lets an empty list and a second member of an at-most-one
  group through; extraction cannot give them back.
- `TemplateSearch.NonCriticalRepetition`: a repeated non-critical element of a finished row is passed
  over by the skipping search and refused by the full one.
- `Utf8.OverlongAccepted`: overlong forms are accepted as UTF-8.
- `Base32.ForeignDigitReadsAsSeven`: the digits 0, 1, 8 and 9 are not refused.
- `Base32.ZeroGroupExact`: with group length 0 the padding loop takes a remainder modulo 1 and writes a
  separator behind each padding character but the last; the computed length has room for that exactly
  if at most one padding character is due.
- `Publication.CharacterDamageRejected`: a replaced character of a publication string goes unnoticed
  exactly if its symbol differs only in bits that the decoder drops at the end.
- `HttpBody.BadChunkLost`: body bytes of a chunk with a bad terminator are lost, unless they came in an
  earlier call; `HttpBody.GuardExact` gives the guard for that.
- `HttpBody.UnhexExact`: the table of hexadecimal digits has 128 initialisers for 256 entries, so that
  bytes from 128 on read as the digit 0. `HttpChunks.SizeLineExact` says which size lines are taken,
  `HttpChunks.SizeLineDeparture` that these are sizes of RFC 2616 exactly if all their bytes are below
  128, and `HttpChunks.HighByteEndsBody` gives the input: a size line of the byte 128 ends the body.
- `UrlGrammar.SchemeWithoutHost`: a scheme with a path and no host is accepted.

## Model

| member | source | states |
|---|---|---|
| Words.TopBitIsLargestPower | libksi0/libksi-3.2.2.0/src/ksi/hashchain.c:54-62 | the value that `highBit` is meant to return is the largest power of two not above its argument |
| Words.SmearKeepsTopBit | libksi0/libksi-3.2.2.0/src/ksi/hashchain.c:54-62 | smearing a 64-bit word downwards and subtracting the shifted word leaves exactly its highest bit |
| CalendarChain.HighBit | libksi0/libksi-3.2.2.0/src/ksi/hashchain.c:54-62 | the word arithmetic computes the largest power of two, for every positive 63-bit value |
| CalendarChain.CalculateCalendarAggregationTime | libksi0/libksi-3.2.2.0/src/ksi/hashchain.c:316-370 | the backward loop computes `AggregationTime`, with its error cases, for every list of directions and every publication time |
| CalendarChain.ShapesBijection | libksi0/libksi-3.2.2.0/src/ksi/hashchain.c:316-370 | for publication times 1 to 2^63-1 the accepted shapes correspond one to one to the times 0 to p: a shape denotes a exactly if it is the path of leaf a |
| CalendarChain.NoShapeOutsideRange | libksi0/libksi-3.2.2.0/src/ksi/hashchain.c:316-370 | nothing is accepted for publication time 0 or one that is negative as `time_t` |
| CalendarChain.ShapeLength | libksi0/libksi-3.2.2.0/src/ksi/hashchain.c:316-370 | an accepted chain is no longer than the publication time has bits |
| CalendarChain.RightLinksAreSetBits | libksi0/libksi-3.2.2.0/src/ksi/hashchain.c:316-370 | the number of right links is the number of set bits of the aggregation time |
| CalendarChain.RightLinksIndependentOfPublication | libksi0/libksi-3.2.2.0/src/ksi/hashchain.c:316-370 | chains for one aggregation time under any two publication times have equally many right links |
| CalendarChain.LastLinkSide | libksi0/libksi-3.2.2.0/src/ksi/hashchain.c:316-370 | the last link of an accepted chain is a left one exactly if the aggregation time is below the largest power of two up to the publication time; left links alone lead to 0, right links alone to the publication time |
| Hashing.ImprintsAreDelimited | libksi0/libksi-3.2.2.0/src/ksi/hash.c:125-170 | the algorithm id of an imprint says where it ends: equal concatenations have equal imprints in front |
| Hashing.ImprintParts | libksi0/libksi-3.2.2.0/src/ksi/hash.c:125-170 | equal imprints are equal algorithms and equal digests |
| Hashing.ImprintSizes | libksi0/libksi-3.2.2.0/src/ksi/hash.c:55-68 | which lengths an imprint has, by its algorithm id |
| Hashing.OpenHasher | libksi0/libksi-3.2.2.0/src/ksi/hash_openssl.c:109-151 | opens an empty hasher for an implemented algorithm; any other id is an error |
| Hashing.DataHasher.Reset | libksi0/libksi-3.2.2.0/src/ksi/hash_openssl.c:154-194 | a reset forgets what was fed and keeps the algorithm |
| Hashing.DataHasher.Add | libksi0/libksi-3.2.2.0/src/ksi/hash_openssl.c:196-214 | bytes are appended to what is hashed |
| Hashing.DataHasher.Close | libksi0/libksi-3.2.2.0/src/ksi/hash.c:537-572 | closing gives a new hash object with the imprint of everything fed |
| Hashing.DataHasher.CloseExisting | libksi0/libksi-3.2.2.0/src/ksi/hash_openssl.c:57-96 | closing into an existing hash object overwrites it |
| HashChain.AddNvlImprint | libksi0/libksi-3.2.2.0/src/ksi/hashchain.c:65-92 | feeds the first hash, or the second if there is no first |
| HashChain.AddChainImprint | libksi0/libksi-3.2.2.0/src/ksi/hashchain.c:94-182 | feeds the one sibling of a link; none, several or an empty one is an error and feeds nothing |
| HashChain.AddLink | libksi0/libksi-3.2.2.0/src/ksi/hashchain.c:249-282 | the hasher has been fed the hash below, the sibling and the level, in the order of the link direction, or the step reports the error |
| HashChain.AggregateLink | libksi0/libksi-3.2.2.0/src/ksi/hashchain.c:215-293 | one round: level, algorithm, reused hasher and overwritten hash object, or the first error in source order |
| HashChain.AggregateChain | libksi0/libksi-3.2.2.0/src/ksi/hashchain.c:184-311 | the loop with its reused hasher and its reused hash object computes `Aggregate`: level, root over the layers, or first error |
| HashChain.HashOfLink | libksi0/libksi-3.2.2.0/src/ksi/hashchain.c:215-293 | for every run and every further link that is not refused, the new hash is the algorithm id and the digest of hash below, sibling and level byte for a left link, and of sibling, hash below and level byte for a right one |
| HashChain.LinkRefused | libksi0/libksi-3.2.2.0/src/ksi/hashchain.c:94-293 | for every run and every further link: an earlier error stays, and otherwise which of the errors the link is refused with, in the order of the tests, or none |
| HashChain.LevelCheckDeparture | libksi0/libksi-3.2.2.0/src/ksi/hashchain.c:222-279 | the level check that does not stop is made up for by the later range test, except exactly for the given corrections |
| HashChain.AggregationSucceeds | libksi0/libksi-3.2.2.0/src/ksi/hashchain.c:184-311 | an aggregation with byte corrections succeeds exactly when its algorithm is implemented, each link has one sibling and the sum of the levels stays in range; the end level is the sum |
| HashChain.RootConcat | libksi0/libksi-3.2.2.0/src/ksi/hashchain.c:215-293 | the root over two stretches of a path is the root over the second from the root over the first |
| HashChain.AggregateConcat | libksi0/libksi-3.2.2.0/src/ksi/hashchain.c:184-311 | aggregating two chains one after the other is aggregating their concatenation |
| HashChain.MessageInjective | libksi0/libksi-3.2.2.0/src/ksi/hashchain.c:249-282 | what is hashed for a link determines the hash below, the sibling and the level |
| HashChain.PathBinding | libksi0/libksi-3.2.2.0/src/ksi/hashchain.c:184-311 | equal roots over comparable paths mean equal inputs and equal layers, or the two paths show a collision at a named layer |
| HashChain.MerkleBinding | libksi0/libksi-3.2.2.0/src/ksi/hashchain.c:184-311 | two runs over chains of one shape with equal results have equal algorithms, inputs, siblings and levels, or show a collision at a named link |
| HashChain.AlgorithmDeparture | libksi0/libksi-3.2.2.0/src/ksi/hashchain.c:228-243 | the result is the one with the announced algorithms exactly when the algorithm never changes behind the first link, or there is a collision |
| AggregationChains.VerifyInternally | libksi0/libksi-3.2.2.0/src/ksi/signature.c:1823-1928 | the loop over the chains, with its early exits and its success count, gives the verdict of `Verify` |
| AggregationChains.SuccessMeansPrefixes | libksi0/libksi-3.2.2.0/src/ksi/signature.c:1838-1908 | after success every chain index is the first one shortened by its position, the times agree and all levels are at most 0xff |
| AggregationChains.ReachedChain | libksi0/libksi-3.2.2.0/src/ksi/signature.c:1843-1912 | at each chain that is reached: a missing or another time, an index that does not continue the one before, or another input hash make the verdict a failure; an error of the aggregation stops; otherwise its level and hash go on |
| AggregationChains.OtherTimeFails | libksi0/libksi-3.2.2.0/src/ksi/signature.c:1852-1860 | a chain without a time, or of another round, behind accepted chains makes the verdict a failure |
| AggregationChains.ChainsCompose | libksi0/libksi-3.2.2.0/src/ksi/signature.c:1823-1928 | for non-empty chains with one algorithm, success is exactly consistency with one aggregation of all links in order, and gives its result |
| AggregationChains.ChainsComposeExact | libksi0/libksi-3.2.2.0/src/ksi/signature.c:1880-1901 | in a list that is verified, every prefix composes exactly if no chain is empty |
| AggregationChains.EmptyChainBreaksTheLink | libksi0/libksi-3.2.2.0/src/ksi/signature.c:1880-1901 | at any position any input hash passes exactly if the chain before is empty; otherwise only the output hash of that chain passes, and any other is a failure of the list |
| Tlv.RoundTrip | libksi0/libksi-3.2.2.0/src/ksi/tlv.c:237-294 | parsing an encoding and expanding it gives the element back exactly when its payload has at most 0xffff bytes; a longer one is refused |
| Tlv.ReadFirstOfEncode | libksi0/libksi-3.2.2.0/src/ksi/tlv.c:237-294 | the first element read from an encoding followed by anything is that element, and exactly its bytes are taken |
| Tlv.ParseAllOfEncodeAll | libksi0/libksi-3.2.2.0/src/ksi/tlv.c:297-368 | the payload of encoded elements splits into exactly these elements |
| Tlv.TooLong | libksi0/libksi-3.2.2.0/src/ksi/tlv.c:1130-1187 | the encoding of an element with a longer payload never parses |
| Tlv.EncodeInjective | libksi0/libksi-3.2.2.0/src/ksi/tlv.c:1130-1187 | elements with equal bytes differ at most in how far they are expanded |
| Tlv.Reserialization | libksi0/libksi-3.2.2.0/src/ksi/tlv.c:237-368 | whatever was parsed, however far it was expanded: its encoding is no longer than the bytes, parses to the same element, and encodes to itself |
| Tlv.CastIsExpansion | libksi0/libksi-3.2.2.0/src/ksi/tlv.c:297-368 | a cast to the nested form stays an expansion of the parsed bytes |
| Tlv.WireFormat | libksi0/libksi-3.2.2.0/src/ksi/tlv.c:1130-1187 | the bytes of every element: when the long form is used, which bit is which flag, and the high byte first in tags and lengths |
| Tlv.ReadFormat | libksi0/libksi-3.2.2.0/src/ksi/tlv.c:237-294 | exactly which bytes are read as an element, the unnecessarily long forms included, and the two errors for all others |
| TlvSerializer.SerializeRaw | libksi0/libksi-3.2.2.0/src/ksi/tlv.c:984-1016 | copies a payload in front of what the buffer holds and leaves that alone |
| TlvSerializer.SerializeTlvList | libksi0/libksi-3.2.2.0/src/ksi/tlv.c:1018-1057 | writes the elements from the last to the first; succeeds exactly if they fit, and the bytes are their encoding |
| TlvSerializer.SerializePayload | libksi0/libksi-3.2.2.0/src/ksi/tlv.c:1059-1128 | the same for a raw or a nested payload |
| TlvSerializer.WriteHeader | libksi0/libksi-3.2.2.0/src/ksi/tlv.c:1154-1178 | writes the short or the long header, lowest byte first |
| TlvSerializer.SerializeTlv | libksi0/libksi-3.2.2.0/src/ksi/tlv.c:1130-1187 | payload and header end where the free part of the buffer ended; success exactly if they fit |
| TlvSerializer.Serialize | libksi0/libksi-3.2.2.0/src/ksi/tlv.c:1189-1228 | backward serialization and the shift to the front leave exactly the encoding at the front of the buffer |
| TlvSerializer.SerializeNew | libksi0/libksi-3.2.2.0/src/ksi/tlv.c:1244-1270 | the buffer of the library is large enough for every element that fits |
| TlvSerializer.ReadElements | libksi0/libksi-3.2.2.0/src/ksi/tlv.c:297-346 | the loop over a payload is `ParseAll` |
| TlvSerializer.Node.EncodeAsNestedTlvs | libksi0/libksi-3.2.2.0/src/ksi/tlv.c:297-368 | expanding a node in place gives the nested element, or an error and an unchanged node |
| TlvSerializer.Node.EncodeAsRaw | libksi0/libksi-3.2.2.0/src/ksi/tlv.c:180-235 | folding a node in place keeps its bytes and succeeds exactly if they fit into 0x10000 |
| TlvSerializer.TakesForm | libksi0/libksi-3.2.2.0/src/ksi/tlv.c:1358-1424 | an element that is brought into the form of a sample keeps its tag, its flags and, if it is raw, all its bytes |
| TlvSerializer.Clone | libksi0/libksi-3.2.2.0/src/ksi/tlv.c:1426-1472 | a clone succeeds exactly for elements that fit and is expanded one level |
| TlvSerializer.CloneAgreement | libksi0/libksi-3.2.2.0/src/ksi/tlv.c:1358-1472 | a clone has the bytes of its original, and equals it exactly when nothing inside it is expanded |
| TlvInteger.IntegerFromTlv | libksi0/libksi-3.2.2.0/src/ksi/types_base.c:586-641 | the loop accepts exactly the minimal payloads of at most eight bytes and returns their value |
| TlvInteger.IntegerToTlv | libksi0/libksi-3.2.2.0/src/ksi/types_base.c:643-689 | the loop writes the minimal big-endian form |
| TlvInteger.MinSizeIsLength | libksi0/libksi-3.2.2.0/src/ksi/types_base.c:618-627 | the size macro counts the bytes of the minimal form of every 64-bit value |
| TlvInteger.IntegerExact | libksi0/libksi-3.2.2.0/src/ksi/types_base.c:586-689 | integers and minimal payloads correspond one to one |
| TlvInteger.ByteOfInteger | libksi0/libksi-3.2.2.0/src/ksi/types_base.c:643-689 | each byte of an integer is its digit to the base 256, the highest first |
| Utf8.VerifyUtf8 | libksi0/libksi-3.2.2.0/src/ksi/types_base.c:223-268 | the two loops compute `Check`, with both error codes |
| Utf8.CheckExact | libksi0/libksi-3.2.2.0/src/ksi/types_base.c:223-268 | accepted are exactly the concatenations of characters without a zero byte before the end |
| Utf8.CutExact | libksi0/libksi-3.2.2.0/src/ksi/types_base.c:240-262 | the overflow error is exactly for texts that end within a character, and every other refusal is an invalid format |
| Utf8.CharExact | libksi0/libksi-3.2.2.0/src/ksi/types_base.c:223-268 | an accepted character is one of RFC 3629 exactly if it is not overlong, not a surrogate and not beyond the last code point |
| Utf8.EncodingAccepted | libksi0/libksi-3.2.2.0/src/ksi/types_base.c:279-328 | every null-terminated text of RFC 3629 without U+0000 is a string value |
| Utf8.OverlongAccepted | libksi0/libksi-3.2.2.0/src/ksi/types_base.c:223-268 | the two-byte form of zero is accepted and is no code point |
| TlvReader.Reader.Read | libksi0/libksi-3.2.2.0/src/ksi/io.c:262-298 | a memory reader gives as many bytes as there are and says whether it is at the end |
| TlvReader.ReadHeader | libksi0/libksi-3.2.2.0/src/ksi/tlv.c:121-175 | reads two or four bytes of header and the length; a stream that ends within them is an error |
| TlvReader.ReadTlv | libksi0/libksi-3.2.2.0/src/ksi/tlv.c:571-613 | reads one element, or the error that the way it is cut off calls for |
| TlvReader.CutErrors | libksi0/libksi-3.2.2.0/src/ksi/tlv.c:121-175 | which error bytes give that end within the header or within the payload |
| TlvReader.FrameAgreement | libksi0/libksi-3.2.2.0/src/ksi/tlv.c:121-294 | reader and parser find the same first element in every byte string |
| TlvReader.FramingAgreement | libksi0/libksi-3.2.2.0/src/ksi/tlv.c:571-613 | repeated reading splits every byte string as parsing does, or both fail; the elements partition it |
| Template.ExtractGenerator | libksi0/libksi-3.2.2.0/src/ksi/tlv_template.c:432-623 | the loop with its start index, hit flags and the object filled in place computes `ExtractInto` |
| Template.Convert | libksi0/libksi-3.2.2.0/src/ksi/tlv_template.c:530-583 | one element is converted by its row, a composite through an object of its own |
| Template.ConstructTlv | libksi0/libksi-3.2.2.0/src/ksi/tlv_template.c:630-845 | the loop over the rows computes `Construct` |
| Template.ConstructRow | libksi0/libksi-3.2.2.0/src/ksi/tlv_template.c:705-800 | the elements of one row, single or list |
| Template.ConstructValue | libksi0/libksi-3.2.2.0/src/ksi/tlv_template.c:705-800 | the element of one value |
| Template.DeepCopyInto | libksi0/libksi-3.2.2.0/src/ksi/tlv_template.c:852-890 | a copy is construction and extraction into the object given, whatever it holds; nothing changes if construction fails |
| TemplateSearch.StepAgreement | libksi0/libksi-3.2.2.0/src/ksi/tlv_template.c:470-595 | for one element the two searches agree exactly unless a non-critical element repeats the tag of a skipped row |
| TemplateSearch.SkippingRefinesFullSearch | libksi0/libksi-3.2.2.0/src/ksi/tlv_template.c:470-614 | on every stream of critical elements the skipping search has the result code and the object of the full search |
| TemplateSearch.NonCriticalRepetition | libksi0/libksi-3.2.2.0/src/ksi/tlv_template.c:487-595 | with a non-critical element the two can differ |
| TemplateAccepts.ElementLaw | libksi0/libksi-3.2.2.0/src/ksi/tlv_template.c:487-595 | a critical element is refused exactly without a row that can still take it; then its own value decides |
| TemplateAccepts.AcceptsExactly | libksi0/libksi-3.2.2.0/src/ksi/tlv_template.c:432-623 | critical elements are accepted exactly if each in turn has a row that is not used up or excluded by its group and that decodes it, and every mandatory row and every at-least-one group is served |
| TemplateAccepts.TwoDefinitions | libksi0/libksi-3.2.2.0/src/ksi/tlv_template.c:487-595 | an element with two rows is taken by both exactly if the first has the flag for more definitions |
| TemplateAccepts.ConstructedIsTyped | libksi0/libksi-3.2.2.0/src/ksi/tlv_template.c:640-845 | only objects with lists in the list rows, single values in the others and all mandatory fields are written |
| TemplateRoundTrip.RoundTrip | libksi0/libksi-3.2.2.0/src/ksi/tlv_template.c:432-890 | for every template and every well-formed object, extracting what was constructed gives the object, whatever the nesting, the groups and the rows that share a list |
| TemplateExact.RunMakesNoEmptyList | libksi0/libksi-3.2.2.0/src/ksi/tlv_template.c:225-296 | extraction never leaves an empty list |
| TemplateExact.CopyExact | libksi0/libksi-3.2.2.0/src/ksi/tlv_template.c:630-890 | of the objects that construction accepts, a copy equals its original exactly when no list is empty and no at-most-one group is served twice |
| TemplateParsed.ApplyKeepsParsed | libksi0/libksi-3.2.2.0/src/ksi/tlv_template.c:487-586 | taking an element keeps the object so far well-formed |
| TemplateParsed.ExtractedIsGood | libksi0/libksi-3.2.2.0/src/ksi/tlv_template.c:432-623 | every object that extraction makes from any elements is well-formed |
| TemplateParsed.CopyOfExtracted | libksi0/libksi-3.2.2.0/src/ksi/tlv_template.c:852-890 | copying an object that was read from elements always succeeds and is exact |
| TemplateWire.ExtractFlat | libksi0/libksi-3.2.2.0/src/ksi/tlv_template.c:328-374 | parsing the elements again from their bytes does not change what is extracted |
| TemplateWire.BytesRoundTrip | libksi0/libksi-3.2.2.0/src/ksi/tlv_template.c:387-419 | a well-formed object comes back from the bytes of its element exactly when the payload fits the length field |
| KsiTemplates.IntegersReadBack | libksi0/libksi-3.2.2.0/src/ksi/types_base.c:586-689 | an integer that was read can be written under any tag and read back |
| KsiTemplates.ImprintsReadBack | libksi0/libksi-3.2.2.0/src/ksi/hash.c:332-419 | the same for imprints |
| KsiTemplates.StringsReadBack | libksi0/libksi-3.2.2.0/src/ksi/types_base.c:425-494 | the same for non-empty strings |
| KsiTemplates.LinkReadsBack | libksi0/libksi-3.2.2.0/src/ksi/hashchain.c:523-612 | a calendar link is written with the tag of its side and read back by the row of that tag |
| KsiTemplates.CalendarTemplate | libksi0/libksi-3.2.2.0/src/ksi/tlv_template.c:148-154 | the table of calendar chains meets the conditions of the round trips, with two tags for one list |
| KsiTemplates.PublicationRecordTemplate | libksi0/libksi-3.2.2.0/src/ksi/tlv_template.c:76-85 | so does the table of publication records |
| KsiTemplates.PublicationFormat | libksi0/libksi-3.2.2.0/src/ksi/tlv_template.c:76-87 | the elements of every publication record, with their tags and their order |
| CalendarObjects.CalendarElements | libksi0/libksi-3.2.2.0/src/ksi/tlv_template.c:148-154 | the elements of a chain: the scalars, then the links in chain order, left and right mixed, each under the tag of its side |
| CalendarObjects.CalendarFormat | libksi0/libksi-3.2.2.0/src/ksi/tlv_template.c:148-154 | the elements of every calendar chain with their tags: times, input hash, and each link as 0x07 or 0x08 by its side |
| CalendarObjects.CalendarGood | libksi0/libksi-3.2.2.0/src/ksi/tlv_template.c:148-154 | a chain is well-formed exactly if it has a link |
| CalendarObjects.ExtractCollects | libksi0/libksi-3.2.2.0/src/ksi/tlv_template.c:225-296 | the extracted list is the link elements in the order of arrival, whatever stands between them |
| CalendarObjects.ExtractedIsCalendar | libksi0/libksi-3.2.2.0/src/ksi/tlv_template.c:432-623 | every accepted list of elements gives a chain with a link, its links in the order of arrival |
| CalendarObjects.CalendarRoundTrip | libksi0/libksi-3.2.2.0/src/ksi/tlv_template.c:630-890 | a chain with a link survives elements and bytes; one without is refused when it is read |
| List.List.Append | libksi0/libksi-3.2.2.0/src/ksi/list.c:47-85 | appends, into a larger copy when the array is full |
| List.List.IndexOf | libksi0/libksi-3.2.2.0/src/ksi/list.c:101-134 | the first position of an object, by identity |
| List.List.ElementAt | libksi0/libksi-3.2.2.0/src/ksi/list.c:196-214 | the element, or an error behind the last one |
| List.List.ReplaceAt | libksi0/libksi-3.2.2.0/src/ksi/list.c:136-154 | replaces one element and nothing else |
| List.List.Remove | libksi0/libksi-3.2.2.0/src/ksi/list.c:220-246 | removes one element and closes the gap |
| ChainOrder.SortIsUnique | libksi0/libksi-3.2.2.0/src/ksi/signature.c:397-410 | chains with indices of different lengths end up in one order, whatever the sort |
| ChainOrder.ReextractionKeepsOrder | libksi0/libksi-3.2.2.0/src/ksi/signature.c:446-456 | extracting and sorting the same chains again gives the same list |
| ChainOrder.LongestFirst | libksi0/libksi-3.2.2.0/src/ksi/signature.c:397-410 | of two chains of a sorted list the first has at least as many index elements |
| SignatureStream.ReplaceExact | libksi0/libksi-3.2.2.0/src/ksi/signature.c:617-721 | replacing an element changes its field to the given value, and nothing else, exactly if the new element decodes to that value |
| SignatureStream.RemoveProof | libksi0/libksi-3.2.2.0/src/ksi/signature.c:723-778 | filtering the elements removes the two fields and nothing else |
| SignatureStream.AppendExact | libksi0/libksi-3.2.2.0/src/ksi/signature.c:780-867 | appending a publication record sets its field exactly if the element decodes to the record |
| SignatureStream.ChainsKept | libksi0/libksi-3.2.2.0/src/ksi/signature.c:723-778 | filtering leaves the aggregation chain elements, in order |
| SignatureStream.ChainsReplaced | libksi0/libksi-3.2.2.0/src/ksi/signature.c:617-721 | so does replacing an element of another tag |
| Signature.AcceptedIsWellTyped | libksi0/libksi-3.2.2.0/src/ksi/signature.c:338-350 | whatever elements are accepted, the chains are a list and the other parts are single objects |
| Signature.Signature.constructor | libksi0/libksi-3.2.2.0/src/ksi/signature.c:412-475 | the fields of a new signature are the extracted ones, its chains sorted, and they agree with the base TLV they were extracted from |
| Signature.Signature.FindElement | libksi0/libksi-3.2.2.0/src/ksi/signature.c:665-681 | the first element with a tag, or the last element if there is none |
| Signature.Signature.ReplaceNestedTlv | libksi0/libksi-3.2.2.0/src/ksi/tlv.c:889-933 | the first occurrence of an element, by identity, is replaced |
| Signature.Signature.ReplaceFirst | libksi0/libksi-3.2.2.0/src/ksi/signature.c:665-701 | the first element with the tag is replaced and all others stay |
| Signature.Signature.ReplaceCalendarChain | libksi0/libksi-3.2.2.0/src/ksi/signature.c:617-721 | all error cases; on success element and field are replaced, the chains stay, and base TLV and fields agree exactly if the chain survives a copy |
| Signature.Signature.RemoveCalAuthAndPublication | libksi0/libksi-3.2.2.0/src/ksi/signature.c:723-778 | the backward deletion in place is the filter, and both fields are cleared |
| Signature.Signature.AddPublication | libksi0/libksi-3.2.2.0/src/ksi/signature.c:806-851 | the record goes behind the kept elements |
| Signature.Signature.ReplacePublicationRecord | libksi0/libksi-3.2.2.0/src/ksi/signature.c:780-867 | the whole new element list and all fields, for no record, a record that cannot be written, and one that can |
| SignatureEdits.CalendarChainFits | libksi0/libksi-3.2.2.0/src/ksi/signature.c:634-655 | a calendar chain may take the place of another exactly if the two have one input hash; otherwise which error there is |
| SignatureEdits.ApplyEdit | libksi0/libksi-3.2.2.0/src/ksi/signature.c:617-867 | after any edit, successful or not, extracting the base TLV gives the fields |
| SignatureEdits.ApplyEdits | libksi0/libksi-3.2.2.0/src/ksi/signature.c:1105-1203 | the same after any sequence of edits, with the aggregation chains unchanged and in order, and the fields those of the edits |
| SignatureEdits.ReceivedIsFaithful | libksi0/libksi-3.2.2.0/src/ksi/signature.c:1105-1203 | chains and records that were read from elements can always be put in |
| Verification.VerificationResult.Reset | libksi0/libksi-3.2.2.0/src/ksi/verification.c:24-54 | a reset leaves an empty record |
| Verification.VerificationResult.AddVerificationStepResult | libksi0/libksi-3.2.2.0/src/ksi/verification.c:76-101 | one more result in the log and in the bitmaps |
| Verification.VerificationResult.GetStepResult | libksi0/libksi-3.2.2.0/src/ksi/verification.c:116-130 | results by index; the bound test lets one slot more through |
| Verification.VerificationResult.LastFailureMessage | libksi0/libksi-3.2.2.0/src/ksi/verification.c:152-168 | the last failure, and there is one exactly if a failed bit is set |
| Verification.LogIsBounded | libksi0/libksi-3.2.2.0/src/ksi/verification_impl.h:36-47 | a consistent log fills at most 13 of its 32 slots |
| Verification.LastFailureIsLast | libksi0/libksi-3.2.2.0/src/ksi/verification.c:152-168 | the message is the description of the failed entry that no other one follows |
| Verification.NoFailureNoMessage | libksi0/libksi-3.2.2.0/src/ksi/verification.c:152-168 | a failed bit and a failure message come together |
| Policy.RunEntry | libksi0/libksi-3.2.2.0/src/ksi/signature.c:2459-2552 | one pass over the steps, with the due test before each |
| Policy.VerifyPolicy | libksi0/libksi-3.2.2.0/src/ksi/signature.c:2449-2570 | the engine on the record computes `Decide` and keeps the record consistent |
| Policy.StaysConsistent | libksi0/libksi-3.2.2.0/src/ksi/signature.c:2445-2447 | executing a due step keeps the record consistent and its log within 13 slots |
| Policy.NothingBehindBadStep | libksi0/libksi-3.2.2.0/src/ksi/signature.c:2459-2552 | behind a failing or erroneous step of an entry no step that comes later in the engine leaves a trace, and the policy ends there |
| Policy.EveryStepRecordedOnce | libksi0/libksi-3.2.2.0/src/ksi/signature.c:2445-2447 | in a run from a reset result every step is recorded in one execution only |
| Policy.DecideIsVerdict | libksi0/libksi-3.2.2.0/src/ksi/signature.c:2449-2570 | from any clean record the engine gives the verdict of a reference without a record |
| Policy.PolicyCorrect | libksi0/libksi-3.2.2.0/src/ksi/signature.c:2449-2570 | a policy is accepted exactly when some entry has only passing steps and no entry up to it has a failing or erroneous one |
| SignatureVerification.AggregateCalendar | libksi0/libksi-3.2.2.0/src/ksi/hashchain.c:382-441 | the root of a calendar chain |
| SignatureVerification.CalendarLinkHash | libksi0/libksi-3.2.2.0/src/ksi/hashchain.c:382-441 | the hash of a calendar chain over one more link, with the level byte 0xff and the side of the link |
| SignatureVerification.CalendarAggregates | libksi0/libksi-3.2.2.0/src/ksi/hashchain.c:184-441 | a calendar chain is aggregated exactly if the algorithm of its first left link, or of its input, is implemented |
| SignatureVerification.VerifyInternallyAggregationChain | libksi0/libksi-3.2.2.0/src/ksi/signature.c:1823-1928 | what the step records and returns, and the hash it leaves |
| SignatureVerification.VerifyAggregationRootWithCalendarChain | libksi0/libksi-3.2.2.0/src/ksi/signature.c:1930-1970 | records each mismatch and then a success all the same |
| SignatureVerification.VerifyInternallyCalendarChain | libksi0/libksi-3.2.2.0/src/ksi/signature.c:2026-2050 | records whether the shape denotes the stated time |
| SignatureVerification.VerifyCalendarChain | libksi0/libksi-3.2.2.0/src/ksi/signature.c:1972-2024 | records whether the chain leads to the authentication record, if there is one |
| SignatureVerification.VerifyCalendarChainWithPublication | libksi0/libksi-3.2.2.0/src/ksi/signature.c:2385-2443 | records whether the chain leads to the publication, if there is one |
| SignatureVerification.PublishedExact | libksi0/libksi-3.2.2.0/src/ksi/signature.c:1972-2443 | the comparison with a publication or an authentication record asks for its time and for its hash |
| SignatureVerification.OutcomesAreBounded | libksi0/libksi-3.2.2.0/src/ksi/signature.c:1823-2443 | no step records more results than the bound on the log allows for it |
| SignatureBinding.InternalRecord | libksi0/libksi-3.2.2.0/src/ksi/signature.c:2459-2570 | the whole record and the result code of the internal policy for every signature: chains first, then the calendar shape, then the root comparison |
| SignatureBinding.InternalExact | libksi0/libksi-3.2.2.0/src/ksi/signature.c:46-48 | the internal policy accepts exactly the signatures whose chains lead to the calendar input in one round and whose calendar shape denotes the stated time |
| SignatureBinding.LibraryPolicies | libksi0/libksi-3.2.2.0/src/ksi/signature.c:46-80 | all policies but the paranoid one ask for the three internal steps in every entry |
| SignatureBinding.OfflineExact | libksi0/libksi-3.2.2.0/src/ksi/signature.c:50-54 | the offline policy accepts exactly if the internal steps pass and one of the three ways does, with nothing wrong in an earlier one |
| SignatureBinding.OnlineExact | libksi0/libksi-3.2.2.0/src/ksi/signature.c:56-58 | the online policy asks for the internal steps and the extender |
| SignatureBinding.SignatureExact | libksi0/libksi-3.2.2.0/src/ksi/signature.c:67-72 | the signature policy accepts by one of the three ways, or by the extender if nothing is wrong in any of them |
| SignatureBinding.DocumentExact | libksi0/libksi-3.2.2.0/src/ksi/signature.c:60-65 | the document policy asks for the document step in addition |
| SignatureBinding.ParanoidExact | libksi0/libksi-3.2.2.0/src/ksi/signature.c:75-80 | the paranoid policy asks for the publications file and the extender in every entry, and for the calendar shape in none |
| SignatureBinding.AcceptedIsInternallySound | libksi0/libksi-3.2.2.0/src/ksi/signature.c:2449-2570 | what such a policy accepts, the internal policy accepts |
| SignatureBinding.OfflineLeadsToPublication | libksi0/libksi-3.2.2.0/src/ksi/signature.c:50-54 | the offline policy accepts only calendar chains that lead to the authentication record or the publication |
| SignatureBinding.ParanoidIgnoresTime | libksi0/libksi-3.2.2.0/src/ksi/signature.c:75-80 | the first paranoid entry accepts without any condition on the shape of the calendar chain |
| SignatureBinding.SameTimesSameShape | libksi0/libksi-3.2.2.0/src/ksi/hashchain.c:316-370 | publication time and aggregation time leave no choice of the shape |
| SignatureBinding.CalendarBinding | libksi0/libksi-3.2.2.0/src/ksi/hashchain.c:184-370 | two calendar chains from one time to one publication are equal, or show a collision at a named link |
| SignatureBinding.RootedIsOnePath | libksi0/libksi-3.2.2.0/src/ksi/signature.c:1823-1970 | an accepted signature is one hash path from its document hash to its calendar chain |
| SignatureBinding.DocumentBinding | libksi0/libksi-3.2.2.0/src/ksi/signature.c:1823-2443 | two accepted signatures of one round and one publication, with paths of one shape, have the same document hash, calendar chain and siblings, or show a collision |
| Base32.MakeMask | libksi0/libksi-3.2.2.0/src/ksi/base32.c:32-43 | a mask of the given number of low bits |
| Base32.AddBits | libksi0/libksi-3.2.2.0/src/ksi/base32.c:45-80 | puts five bits behind those already there and changes no other |
| Base32.ReadNextBitsReads | libksi0/libksi-3.2.2.0/src/ksi/base32.c:149-184 | the five bits at a position, zeros behind the end |
| Base32.Decode | libksi0/libksi-3.2.2.0/src/ksi/base32.c:82-146 | the loop is `DecodeText` for every string and never leaves its buffer |
| Base32.BytesBit | libksi0/libksi-3.2.2.0/src/ksi/base32.c:132-137 | decoded bytes have the bits of the symbols |
| Base32.DecodeFails | libksi0/libksi-3.2.2.0/src/ksi/base32.c:104-130 | refused are exactly the strings with a foreign character before the first padding |
| Base32.Encode | libksi0/libksi-3.2.2.0/src/ksi/base32.c:186-240 | the result is an encoding of the data in any grouping, and it fits the computed buffer length |
| Base32.Pad | libksi0/libksi-3.2.2.0/src/ksi/base32.c:221-227 | the padding loop completes a block within the buffer |
| Base32.ZeroGroupExact | libksi0/libksi-3.2.2.0/src/ksi/base32.c:200-227 | with group length 0 the padding fits the computed length exactly if at most one padding character is due |
| Base32.Room | libksi0/libksi-3.2.2.0/src/ksi/base32.c:200-204 | the computed buffer length is enough for characters, separators and the terminator |
| Base32.CharacterAt | libksi0/libksi-3.2.2.0/src/ksi/base32.c:149-227 | each character of an encoding stands for its five bits of the data, the most significant first, or is padding up to a multiple of eight |
| Base32.CaseIgnored | libksi0/libksi-3.2.2.0/src/ksi/base32.c:104-106 | lower-case letters read like upper-case ones |
| Base32.RoundTrip | libksi0/libksi-3.2.2.0/src/ksi/base32.c:82-240 | every text that is the padded letters of the data once its separators are dropped decodes to the data |
| Base32.ForeignDigitReadsAsSeven | libksi0/libksi-3.2.2.0/src/ksi/base32.c:26-30 | the four digits outside the alphabet each read like 7 |
| Base32.CharacterReplaced | libksi0/libksi-3.2.2.0/src/ksi/base32.c:82-146 | another character of the alphabet in one place changes at most two neighbouring bytes, and none exactly if its symbol differs only in dropped bits |
| Crc32.TableUpdate | libksi0/libksi-3.2.2.0/src/ksi/crc32.c:34-111 | the table step of the loop is eight bitwise steps of the CRC-32 of section 8 of RFC 1952 |
| Crc32.ComputeCrc32 | libksi0/libksi-3.2.2.0/src/ksi/crc32.c:103-116 | the loop computes the bitwise checksum |
| Crc32.ChecksumConcat | libksi0/libksi-3.2.2.0/src/ksi/crc32.c:103-116 | the checksum of one part is the start value for the next |
| Crc32.Residue | libksi0/libksi-3.2.2.0/src/ksi/crc32.c:103-116 | every message followed by its checksum, lowest byte first, has the checksum 0x2144DF1C |
| Crc32.LeadingZeroDetected | libksi0/libksi-3.2.2.0/src/ksi/crc32.c:103-116 | a zero byte in front changes the checksum, for every start value but 0xffffffff |
| Crc32.CheckValue | libksi0/libksi-3.2.2.0/src/ksi/crc32.c:103-116 | the checksum of the digits 1 to 9 |
| Crc32.RegisterInjective | libksi0/libksi-3.2.2.0/src/ksi/crc32.c:103-116 | equal bytes never hide a difference in the register |
| Crc32.BurstDetected | libksi0/libksi-3.2.2.0/src/ksi/crc32.c:103-116 | messages that differ only within four neighbouring bytes have different checksums |
| Crc32.LastByteSpreads | libksi0/libksi-3.2.2.0/src/ksi/crc32.c:103-116 | checksums that differ because of the last byte differ beyond their high byte |
| Publication.WriteBigEndian | libksi0/libksi-3.2.2.0/src/ksi/publicationsfile.c:1020-1034 | writes a number into a window of the buffer and nothing else |
| Publication.ToBase32 | libksi0/libksi-3.2.2.0/src/ksi/publicationsfile.c:983-1053 | the string is an encoding of time, imprint and checksum in groups of six |
| Publication.FromBase32 | libksi0/libksi-3.2.2.0/src/ksi/publicationsfile.c:872-981 | the parser is `ParseText` for every string |
| Publication.ParseBinaryExact | libksi0/libksi-3.2.2.0/src/ksi/publicationsfile.c:899-965 | accepted are exactly the bytes that printing produces, and what was printed is returned |
| Publication.PublicationRoundTrip | libksi0/libksi-3.2.2.0/src/ksi/publicationsfile.c:872-1053 | every 64-bit time with an imprint of a supported algorithm prints and parses back |
| Publication.PrintedLayout | libksi0/libksi-3.2.2.0/src/ksi/publicationsfile.c:1008-1034 | time, imprint and checksum in their places, each number with its high byte first |
| Publication.GroupsOfSix | libksi0/libksi-3.2.2.0/src/ksi/publicationsfile.c:1036-1041 | separators stand at each seventh place and nowhere else |
| Publication.RefusedBinary | libksi0/libksi-3.2.2.0/src/ksi/publicationsfile.c:892-955 | which error refused bytes get |
| Publication.DamageRejected | libksi0/libksi-3.2.2.0/src/ksi/publicationsfile.c:904-914 | damage to four neighbouring bytes of the body or of the checksum is refused |
| Publication.SingleByteDamageRejected | libksi0/libksi-3.2.2.0/src/ksi/publicationsfile.c:899-965 | damage to any single byte is refused |
| Publication.CharacterDamageRejected | libksi0/libksi-3.2.2.0/src/ksi/publicationsfile.c:872-981 | a publication string with one character replaced by another of the alphabet is refused, at the border of body and checksum too, or else the replacement changes dropped bits only and the string still says the same |
| PublicationsFile.Generator.GenerateNextTlv | libksi0/libksi-3.2.2.0/src/ksi/publicationsfile.c:64-111 | the next element, the offset behind it, and the offset of the signature |
| PublicationsFile.ExtractStream | libksi0/libksi-3.2.2.0/src/ksi/tlv_template.c:432-623 | extraction from the generator takes each element before the next is read |
| PublicationsFile.ParseFile | libksi0/libksi-3.2.2.0/src/ksi/publicationsfile.c:189-272 | the parser is `Parse` for every byte string |
| PublicationsFile.FileMagic | libksi0/libksi-3.2.2.0/src/ksi/publicationsfile.c:34-34 | an accepted file begins with these eight characters |
| PublicationsFile.OneSignature | libksi0/libksi-3.2.2.0/src/ksi/publicationsfile.c:50-62 | an accepted file has one signature element |
| PublicationsFile.ParseExact | libksi0/libksi-3.2.2.0/src/ksi/publicationsfile.c:189-272 | a file is accepted exactly if it has the file header, the rest splits into elements and the template takes them |
| PublicationsFile.FilePartition | libksi0/libksi-3.2.2.0/src/ksi/publicationsfile.c:231-244 | an accepted file is its header and its elements, and the signed length is the offset of the signature element |
| HttpBody.RunConcat | libksi0/libksi-3.2.2.0/src/ksi/http_parser.c:1830-2068 | feeding a and then b is feeding both: same state, flags, count of header bytes, remaining length and error |
| HttpBody.SizeKeepsInv | libksi0/libksi-3.2.2.0/src/ksi/http_parser.c:1937-1972 | reading a size digit never wraps and never reaches the sentinel |
| HttpBody.StepKeepsInv | libksi0/libksi-3.2.2.0/src/ksi/http_parser.c:1780-2068 | every byte keeps the invariant that the asserts of the source test |
| HttpBody.RunKeepsInv | libksi0/libksi-3.2.2.0/src/ksi/http_parser.c:1780-2068 | so does every input |
| HttpBody.UnhexExact | libksi0/libksi-3.2.2.0/src/ksi/http_parser.c:225-234 | the table takes exactly the hexadecimal digits and the bytes from 128 on, and gives 0 for the latter |
| HttpBody.NothingLost | libksi0/libksi-3.2.2.0/src/ksi/http_parser.c:1830-2068 | without an error the callbacks see every body byte and every completion |
| HttpBody.DeliveredSplit | libksi0/libksi-3.2.2.0/src/ksi/http_parser.c:1830-2068 | two calls deliver what one call delivers exactly unless the first ends behind bytes of a chunk and the byte in the place of its carriage return is another |
| HttpBody.GuardExact | libksi0/libksi-3.2.2.0/src/ksi/http_parser.c:2024-2030 | that guard, which looks at the state between the calls and one byte, says exactly that the second call loses the chunk at its terminator |
| HttpBody.BadChunkLost | libksi0/libksi-3.2.2.0/src/ksi/http_parser.c:2024-2030 | one call loses a whole chunk with a bad terminator |
| HttpBody.BodyConserved | libksi0/libksi-3.2.2.0/src/ksi/http_parser.c:1873-2037 | delivered plus remaining equals declared |
| HttpBody.ReadBody | libksi0/libksi-3.2.2.0/src/ksi/http_parser.c:1873-2022 | the bytes of a body are delivered as they are, and a whole identity body completes the message |
| HttpParser.HttpParser.ExecuteEof | libksi0/libksi-3.2.2.0/src/ksi/http_parser.c:645-667 | what the end of the connection does in each state |
| HttpParser.HttpParser.EndHeaders | libksi0/libksi-3.2.2.0/src/ksi/http_parser.c:1830-1871 | the decision how the body is delimited |
| HttpParser.HttpParser.ActOnSize | libksi0/libksi-3.2.2.0/src/ksi/http_parser.c:1921-1983 | the size line of a chunk, with the overflow test behind the multiplication |
| HttpParser.HttpParser.ActOnLineEnd | libksi0/libksi-3.2.2.0/src/ksi/http_parser.c:1985-2037 | the line feeds of a chunk |
| HttpParser.HttpParser.ReadLength | libksi0/libksi-3.2.2.0/src/ksi/http_parser.c:1873-2022 | takes as many body bytes as there are in one piece |
| HttpParser.HttpParser.EndChunk | libksi0/libksi-3.2.2.0/src/ksi/http_parser.c:2024-2030 | the line end behind the data of a chunk |
| HttpParser.HttpParser.ExecuteOther | libksi0/libksi-3.2.2.0/src/ksi/http_parser.c:1780-2037 | any other byte; one that is executed again leads to a state of lower rank |
| HttpParser.HttpParser.Execute | libksi0/libksi-3.2.2.0/src/ksi/http_parser.c:628-2077 | the loop with its cursor and its body mark ends in the state of the byte machine, has taken as many bytes and delivered what the machine says |
| HttpFraming.ChunkedBody | libksi0/libksi-3.2.2.0/src/ksi/http_parser.c:1830-2037 | a chunked message, whatever its content length, delivers its chunks and completes once; which start state follows |
| HttpFraming.BodyOfLength | libksi0/libksi-3.2.2.0/src/ksi/http_parser.c:1830-1918 | a positive length delivers exactly as many bytes as they are and then completes the message; which start state follows |
| HttpFraming.EmptyBody | libksi0/libksi-3.2.2.0/src/ksi/http_parser.c:1850-1853 | the length 0 completes the message at once |
| HttpFraming.NoBody | libksi0/libksi-3.2.2.0/src/ksi/http_parser.c:1857-1862 | without a length, requests and responses of status 1xx, 204 and 304 complete at once |
| HttpFraming.BodyToTheEnd | libksi0/libksi-3.2.2.0/src/ksi/http_parser.c:1863-1900 | without a length, any other response delivers every byte and is never complete before the connection ends |
| HttpFraming.ClosedConnection | libksi0/libksi-3.2.2.0/src/ksi/http_parser.c:703-712 | behind a message that closes the connection only line ends are let pass |
| HttpFraming.ExtensionIgnored | libksi0/libksi-3.2.2.0/src/ksi/http_parser.c:1944-1999 | a size line with an extension is the line without it, exactly up to the limit for headers |
| HttpFraming.WrongByte | libksi0/libksi-3.2.2.0/src/ksi/http_parser.c:1830-2037 | the error of each state that expects a certain byte |
| HttpChunks.SizeExact | libksi0/libksi-3.2.2.0/src/ksi/http_parser.c:1921-1972 | a chunk size is accepted exactly up to 2^64-17 |
| HttpChunks.SizeLineExact | libksi0/libksi-3.2.2.0/src/ksi/http_parser.c:1921-1999 | a size line is taken exactly if each byte is a hexadecimal digit or at least 128 and the value is in range |
| HttpChunks.SizeLineDeparture | libksi0/libksi-3.2.2.0/src/ksi/http_parser.c:225-234 | a line that is taken is a size of section 3.6.1 of RFC 2616 exactly if all its bytes are below 128 |
| HttpChunks.HighBytesReadAsZero | libksi0/libksi-3.2.2.0/src/ksi/http_parser.c:225-234 | a line with bytes from 128 on has the state and the value of the line with 0 in their places |
| HttpChunks.HighByteEndsBody | libksi0/libksi-3.2.2.0/src/ksi/http_parser.c:1921-1999 | the byte 128 starts a size of 0 without an error, and as a whole size line it ends the body |
| HttpChunks.ChunkedRoundTrip | libksi0/libksi-3.2.2.0/src/ksi/http_parser.c:1921-2037 | any chunks, encoded as in section 3.6.1 of RFC 2616, are delivered in order and complete the message once |
| HttpChunks.ParseContentLength | libksi0/libksi-3.2.2.0/src/ksi/http_parser.c:1573-1598 | a content length is accepted exactly up to 2^64-7, blanks within it are skipped, and the value is the decimal number |
| HttpReexecution.RankFalls | libksi0/libksi-3.2.2.0/src/ksi/http_parser.c:1265-1830 | a byte that is executed again meets a state of lower rank, in every state that does so |
| HttpReexecution.ExecutionsExact | libksi0/libksi-3.2.2.0/src/ksi/http_parser.c:720-1903 | how often a byte is executed, for each state and each byte |
| HttpReexecution.AtMostFour | libksi0/libksi-3.2.2.0/src/ksi/http_parser.c:720-1903 | no byte is executed more than four times, and exactly the line feed of an empty line behind a header value is |
| HttpReexecution.TotalIsLinear | libksi0/libksi-3.2.2.0/src/ksi/http_parser.c:694-727 | the loop goes around at most four times for each byte |
| HttpReexecution.BodyAgrees | libksi0/libksi-3.2.2.0/src/ksi/http_parser.c:1767-1918 | behind the headers these are the bytes that the byte machine executes again, in the same states |
| HttpChunks.ValueOfDecimal | libksi0/libksi-3.2.2.0/src/ksi/http_parser.c:1573-1598 | the value that is read from the decimal digits of a number is the number |
| UrlParser.CharacterClasses | libksi0/libksi-3.2.2.0/src/ksi/http_parser.c:412-430 | the characters of each class |
| UrlParser.SplitSound | libksi0/libksi-3.2.2.0/src/ksi/http_parser.c:480-626 | an accepted URL is the concatenation of its parts, and they fit the grammar |
| UrlParser.UrlStepKeeps | libksi0/libksi-3.2.2.0/src/ksi/http_parser.c:480-626 | every character keeps the parts within the grammar |
| UrlParser.HostStepKeeps | libksi0/libksi-3.2.2.0/src/ksi/http_parser.c:2152-2215 | every character of the authority does |
| UrlGrammar.SplitComplete | libksi0/libksi-3.2.2.0/src/ksi/http_parser.c:480-626 | every URL of the grammar is accepted and split into the parts it is made of |
| UrlGrammar.SplitExact | libksi0/libksi-3.2.2.0/src/ksi/http_parser.c:2290-2392 | accepted are exactly the URLs of the grammar, and the split is the only one |
| UrlGrammar.FieldsPartition | libksi0/libksi-3.2.2.0/src/ksi/http_parser.c:2290-2392 | every character of an accepted URL is in exactly one field, in order, or is a delimiter between fields |
| UrlGrammar.SchemeWithoutHost | libksi0/libksi-3.2.2.0/src/ksi/http_parser.c:2361-2372 | a scheme and a path without a host are accepted |
| HttpUrl.UrlOfParts | libksi0/libksi-3.2.2.0/src/ksi/http_parser.c:2290-2392 | of a URL that is put together from parts, each part is found under its name, and the port is its number |
| HttpUrl.NoteHostChar | libksi0/libksi-3.2.2.0/src/ksi/http_parser.c:2218-2270 | one character in the table of offsets and lengths |
| HttpUrl.ParseHost | libksi0/libksi-3.2.2.0/src/ksi/http_parser.c:2217-2288 | the table of an authority, or an error |
| HttpUrl.PortNumber | libksi0/libksi-3.2.2.0/src/ksi/http_parser.c:2379-2389 | the decimal value of the port digits |
| HttpUrl.ScanFields | libksi0/libksi-3.2.2.0/src/ksi/http_parser.c:2299-2359 | the table up to the authority |
| HttpUrl.ParseUrl | libksi0/libksi-3.2.2.0/src/ksi/http_parser.c:2290-2392 | success exactly if the URL splits, and the table has the offset and the length of every field and the port |

## Left out

- Network clients, sockets, file reading, the PKI and the example programs: their results are inputs, as step outcomes, byte strings and digests.
- The digest functions: an uninterpreted function whose digest length the algorithm fixes. Binding is stated up to a collision that the two runs themselves show.
- Null arguments, allocation failure, reference counts, logging and error stacks: they do not affect the results modelled here.
- The whole of `KSI_Signature_extend` and `KSI_Signature_extendTo`: their requests and responses are not modelled; the edits they make and the policy they verify with are. The first always verifies with the internal policy, because its copy of the record is cleared just before it is looked at.
- Policy.VerifyPolicy: the outcome of every step is fixed for one run; the steps in SignatureVerification compute theirs from the signature, the others are given.
- SignatureVerification.VerifyInternallyAggregationChain: the descriptions of step results are left empty in this module, and the integer level of the document is given as it is after its conversion.
- Verification.VerificationResult.Reset: the publications file and the hashes that a result also holds are not part of the record.
- Online verification with a user publication: a given outcome. In the source it can only fail, because the hash it compares with is never set.
- Metadata of links: the raw bytes are given, so the templates of metadata and of aggregation chain links are covered by the general theorems only. The other tables are not written out either.
- Signature.Signature.constructor: the sort is a library function; its result is any sorted permutation.
- The children of a node in the base TLV are values, so a child is not shared with another tree; folding a node does not model the reuse of an aliased buffer.
- TLV payloads of integer type: the serializer does not support them.
- List.List.ReplaceAt: replacing at the position behind the last element, which the source allows and no caller uses, is excluded; so is insertion, whose shift copies forwards over itself.
- Base32.Encode: a group length of 0 is covered only for data whose length leaves 0 or 4 modulo 5. The division of base32.c:201-203 is guarded; for the other lengths the padding loop of base32.c:221-227 writes behind the buffer, as Base32.ZeroGroupExact shows, and what that does is not modelled.
- Base32.Pad: the same holds for the loop itself.
- Hash names, HMAC and trust lists.
- HTTP start lines, header names and values other than the content length, trailer fields, upgrade, pausing, failing callbacks and the flag to skip a body. Of the states up to the headers only the bytes that they execute again are modelled; behind the headers everything is.
- HttpUrl.ParseUrl: CONNECT targets, which can never succeed, and URLs above 0xffff bytes, whose offsets would wrap; the port is read up to the end of its field.
- Crc32.ComputeCrc32: `unsigned long` is modelled with 32 bits; the library uses no more.
- TlvSerializer.Clone: absolute and relative offsets of nodes.
- Tags have the 13 bits that the format gives them.
- KsiTemplates.ImprintsReadBack: an empty payload makes the source read one byte behind it before it refuses it; the model refuses it.
