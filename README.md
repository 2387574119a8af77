# HAN-FUN ↔ OCF bridge, modelled in Dafny

This project models the core of a bridge between HAN-FUN and OCF. HAN-FUN is the ULE home-automation protocol. On the OCF side the bridge uses the IoTivity stack. The bridge has two sides:

- **OCF side.** It discovers OCF devices on the network (`/oic/res`). For each device it walks a fixed chain of GET requests: `/oic/d`, `/oic/p`, device configuration, platform configuration, the `oic.r.hanfunobject` collections, the introspection resource, or an inference fallback that builds an introspection document from sample representations. It tracks each device's presence while the device keeps answering.
- **HAN-FUN side.** It talks to the HAN-FUN concentrator over a text control channel and a framed TCP link. It pages through the concentrator's device table and starts one bridge process per device. Each process gives its HAN-FUN device virtual OCF `/oic/d` and `/oic/p` resources.

One Dafny module per source file:

| module | file | models |
|---|---|---|
| `Wrappers` | wrappers.dfy | `Option` and `Result`: a C NULL pointer or a failed library call is `None` |
| `Text` | text.dfy | the C library the code relies on: C strings up to their NUL, `atoi`, `strtok`, `sprintf("%d")`, uint8 and uint16 truncation |
| `Rep` | rep.dfy | IoTivity's `OCRepPayload` as a value with ordered named members |
| `Presence` | presence.dfy | `HFPresence` and `OCPresence` in src/presence.cpp |
| `Interfaces` | interfaces.dfy | the resource-type filter in src/interfaces.cpp |
| `Hash` | hash.dfy | the name-based UUIDs of src/hash.cpp |
| `HanClient` | han_client.dfy | the control-channel messages and the client of src/han_client.cpp |
| `Transport` | transport.dfy | the frames and links of src/transport.cpp |
| `Introspection` | introspection.dfy | the introspection schema synthesis of src/introspection.cpp |
| `Resources` | resource.dfy | the discovered-device model, request failover and query helpers of src/resource.cpp |
| `DeviceInformation` | device_information.dfy | src/device_information.cpp |
| `PropertyStore` | property_store.dfy | the stack's property store as the bridge writes it |
| `DeviceResource` | device_resource.dfy | src/device_resource.cpp |
| `PlatformResource` | platform_resource.dfy | src/platform_resource.cpp |
| `Registration` | registration_resource.dfy | src/registration_resource.cpp |
| `Launcher` | launcher.dfy | samples/hanfun_bridge.cpp |
| `Bridge` | bridge.dfy | src/bridge.cpp with inc/bridge.h |

Code that computes a value is modelled by functions and lemmas. Code that changes objects is modelled by classes with `modifies` clauses. This covers the `Bridge`, the transport `Message` and links, the `HanClient`, presences, the registration resource and the property stores. Loops become methods with invariants, proved against a specification function.

The main path follows the code as written, including the defects listed under "## Findings". Each defect also has a corrected definition, and the intended property is proved about it.

**Inputs taken as parameters.** What the model cannot see is passed in:

- SHA-1: `sha1`.
- `OCConvertUuidToString`: `uuidString`.
- The stack's answer to the n-th request: `stack`.
- The launcher's seen-state answer: `seenState`.
- The library `::ParseIntrospectionPayload`: `parseIntrospection`.
- The CBOR encoder: `encode`.
- The endpoint parser: `parseEndpoint`.
- The HAN-FUN UID pack and unpack: `uidPack` and `uidUnpack`.
- Every `time(NULL)`: the `now` each entry point receives.

**Byte order and constants.** HAN-FUN's `ByteArray` is not part of this model. It is taken to write a uint16 big-endian, most significant byte first, as HAN-FUN's own serialisation does. The following constants come from IoTivity's octypes.h, which is not part of this model either, except `DEVICE_DATA_MODEL_VERSION`, which src/resource.h:32 defines:

- `OC_SPEC_VERSION` is "ocf.1.1.0".
- `DEVICE_DATA_MODEL_VERSION` is "ocf.res.1.1.0".
- The `OCStackResult` values used are `OC_STACK_OK` = 0, `OC_STACK_RESOURCE_CHANGED` = 4 and `OC_STACK_INVALID_QUERY` = 21.

**Distinct URIs.** `SetCollectionLinks` finds each linked resource by its URI. Its full-contents lemma `Resources.MoveLinksContents` therefore assumes that no two resources of a device share a URI. If two did, a second link to that URI would move the second resource. No description as "the top level minus the linked URIs" can say that.

## Model

| member | source | states |
|---|---|---|
| `Presence.Presence.HF` | src/presence.cpp:6-10 | an HFPresence's id is the decimal text of its HAN-FUN address and its last tick is the creation time |
| `Presence.Presence.OC` | src/presence.cpp:28-32 | an OCPresence keeps the OCF device id and the period, and starts its last tick at the creation time |
| `Presence.Presence.Seen` | src/presence.cpp:22-26 | `Seen` moves the last tick to the current time |
| `Presence.FreshIsPresent` | src/presence.cpp:28-43 | an OCPresence with a non-negative period is present at the moment it is created |
| `Presence.OcPresentIff` | src/presence.cpp:39-43 | an OCF device is present exactly when the time since its last tick is at most three periods (RETRIES, src/presence.h:48) |
| `Presence.HanFunAlwaysPresent` | src/presence.cpp:17-20 | a HAN-FUN device is present at every time, whatever its last tick |
| `Presence.HanFunIdInjective` | src/presence.cpp:6-8 | two HFPresence objects have the same id exactly when they have the same address, so the id identifies the device |
| `Interfaces.ScanFinds` | src/interfaces.cpp:18-24 | the strcmp loop over a table from index i finds a name exactly when the name occurs in the rest of the table |
| `Interfaces.TranslatedUnlessListed` | src/interfaces.cpp:8-38 | a resource type is translated exactly when it is not in the do-not-translate table; the deep-translation table never changes the verdict |
| `Interfaces.DeepNamesUnlisted` | src/interfaces.cpp:10-31 | none of the five deep-translation names is in the do-not-translate table |
| `Interfaces.DeepTranslationAccepted` | src/interfaces.cpp:25-34 | every deep-translation name is translated |
| `Hash.CharBytes` | src/hash.cpp:28-31 | a `const char*` name is hashed as one byte per character, as many bytes as characters |
| `Hash.UidInput` | src/hash.cpp:12-31 | SHA-1 is fed the 16-byte namespace, then the uid up to its NUL; a NULL uid adds nothing |
| `Hash.DeviceInput` | src/hash.cpp:92-113 | SHA-1 is fed the 16-byte namespace, then exactly 5 IPUI bytes and exactly 2 EMC bytes, each part left out for a NULL pointer |
| `Hash.StampAsWrittenBits` | src/hash.cpp:85-87 | as written, byte 7 of the id gets high nibble 5 and keeps its low nibble, byte 8 gets top bits 10 and keeps the rest, and every other byte is the digest's |
| `Hash.StampAsWrittenMissesVersion` | src/hash.cpp:85-87 | as written, the octet RFC 4122 reads the version from (octet 6) need not carry version 5: on an all-zero digest it is 0, where the intended stamp gives 5 |
| `Hash.StampBits` | src/hash.cpp:85-87 | the intended stamp: octet 6 carries version 5 (name-based, SHA-1), octet 8 the RFC 4122 variant, every other byte is the digest's (section 4.1.3 of RFC 4122) |
| `Hash.StampDigest` | src/hash.cpp:173-175 | stamping the digest in place and keeping its first 16 bytes yields the as-written id of the old digest |
| `Hash.HashUid` | src/hash.cpp:8-88 | Hash(id, uid) is the as-written stamp of SHA-1 over the namespace and the uid |
| `Hash.HashDevice` | src/hash.cpp:90-176 | Hash(id, ipui, emc) is the as-written stamp of SHA-1 over the namespace, the IPUI and the EMC |
| `HanClient.Packed` | src/han_client.cpp:39-56 | the packed length is the service line with its brackets and CR LF (when there is a service), plus the command and its CR LF, plus the parameters, plus the closing CR LF |
| `HanClient.CopyAt` | src/han_client.cpp:115-153 | copying a piece into the pack buffer writes exactly that piece at the offset and leaves the rest of the buffer as it was |
| `HanClient.Pack` | src/han_client.cpp:39-56 | `pack` allocates exactly the packed size and fills it with the packed bytes of the message |
| `HanClient.ServiceOf` | src/han_client.cpp:65-71 | the service is read from inside the square brackets, with `strlen` of the line truncated to `uint8_t` |
| `HanClient.Unpack` | src/han_client.cpp:57-102 | the strtok and strcat walk gives the same service, command and parameters as the `Unpacked` reading of the datagram |
| `HanClient.PackUnpack` | src/han_client.cpp:39-102 | unpacking a packed message gives back its command and parameter lines; a missing service reads back as "HAN" and an empty parameter block as none |
| `HanClient.FixedRequestBytes` | src/han_client.cpp:344-399 | the INIT, OPEN_REG and CLOSE_REG requests are exactly the datagrams written out in the lemma |
| `HanClient.GetDeviceTableRoundTrip` | src/han_client.cpp:406-425 | the GET_DEV_TABLE request unpacks to its command and its DEV_INDEX and HOW_MANY lines |
| `HanClient.DecimalLine` | src/han_client.cpp:409-414 | a label followed by a decimal number contains no CR or LF, so it stays one line |
| `HanClient.DecimalField` | src/han_client.cpp:186-199 | `atoi` of what follows the label reads back the number that was written |
| `HanClient.ParametersOverflowAsWritten` | src/han_client.cpp:406-414 | the parameters buffer is always short by the number of digits of HOW_MANY, and the three-byte index buffer is too small for an index of 100 or more |
| `HanClient.ParametersCapacityFits` | src/han_client.cpp:406-414 | the corrected capacity is exactly what the two lines need |
| `HanClient.ParseBytes` | src/han_client.cpp:220-232 | the space-separated byte list reads at most the allowed number of values, each truncated to `uint8_t` |
| `HanClient.EmcFirstDigitDroppedAsWritten` | src/han_client.cpp:236-249 | as written, the EMC line " DEV_EMC: 7" reads as no bytes, while the corrected read gives [7] |
| `HanClient.EmcShiftedAsWritten` | src/han_client.cpp:236-249 | as written, a well-formed two-byte EMC line whose first byte has one digit reads as only its second byte |
| `HanClient.EmcReadsBack` | src/han_client.cpp:236-249 | the corrected read returns exactly the two EMC bytes the line lists |
| `HanClient.EntryPass` | src/han_client.cpp:209-253 | one pass of the entry loop consumes at most one line per field and stays within the lines; it is undefined (None) where `strncmp` would get a NULL line |
| `HanClient.EntryReaders` | src/han_client.cpp:209-253 | the entry pass and the field reader are defined at every line the loop can reach |
| `HanClient.Entries` | src/han_client.cpp:205-255 | the entry loop never reads more entries than the count it is given |
| `HanClient.EntriesBounded` | src/han_client.cpp:199-209 | a parsed table never lists more entries than its NO_OF_DEVICES |
| `HanClient.UnpackDeviceTable` | src/han_client.cpp:179-257 | `DeviceTableMessage::unpack` gives the table that `DeviceTableOf` defines from the parameter lines |
| `HanClient.EntriesStep` | src/han_client.cpp:209-255 | one iteration of the entry loop moves one entry from what remains to what has been read |
| `HanClient.ReadEntries` | src/han_client.cpp:205-255 | the while loop reads exactly the entries that `Entries` defines from the third line on |
| `HanClient.DefaultSlotsOverflowAsWritten` | src/han_client.cpp:164-169 | the one-slot table built in `client_recv_cb` is already overrun by a two-device table |
| `HanClient.AnnouncedSlotsSuffice` | src/han_client.cpp:171-177 | slots sized by NO_OF_DEVICES, as the two-argument constructor allocates, are never overrun by a parsed table |
| `HanClient.Client.constructor` | src/han_client.cpp:265-275 | a new client is not initialised and has no context |
| `HanClient.Client.SetInitialized` | inc/han_client.h:42-45 | `set_initialized` ignores its argument and always marks the client initialised; the context is unchanged |
| `HanClient.Client.GetDeviceTable` | src/han_client.cpp:406-425 | `get_device_table` stores the caller's context and sends the packed GET_DEV_TABLE request |
| `HanClient.Client.Receive` | src/han_client.cpp:277-327 | `client_recv_cb` does what `Dispatch` says: INIT_RES marks the client initialised, DEV_TABLE hands the parsed table on with the stored context, and it never changes the context |
| `HanClient.DispatchOtherIgnored` | src/han_client.cpp:291-321 | a datagram with any other command has no effect |
| `Text.CPrefix` | src/han_client.cpp:80-82 | what C reads as a string is the longest prefix without a NUL: it holds no NUL, and it stops only at one |
| `Text.NatToDecimal` | src/han_client.cpp:409-412 | `sprintf("%d")` of a natural number is a non-empty run of digits without a NUL |
| `Text.DecimalValue` | src/han_client.cpp:409-412 | the digits `sprintf` writes denote the number itself |
| `Text.AtoiOfDecimal` | src/han_client.cpp:190 | `atoi` of a decimal number followed by a non-digit gives the number back |
| `Text.AtoiOfNat` | src/han_client.cpp:190 | `atoi` reads back what `sprintf("%d")` wrote |
| `Text.AtoiUnsigned` | src/han_client.cpp:190 | without a sign, `atoi` skips leading white space and reads the leading digits |
| `Text.ToU8` | src/han_client.cpp:190 | a cast to `uint8_t` keeps the value modulo 256, and keeps it unchanged when it already fits |
| `Text.ToU16` | src/han_client.cpp:215 | a cast to `uint16_t` keeps the value modulo 65536, and keeps it unchanged when it already fits |
| `Text.Strtol` | samples/hanfun_bridge.cpp:311 | `strtol(s, &end, 10)` always yields a value in the range of a 64-bit `long` |
| `Text.Tokens` | src/han_client.cpp:61-94 | the tokens `strtok` yields are never empty |
| `Text.NextToken` | src/han_client.cpp:61-94 | one `strtok` step: None exactly when no token is left, otherwise the first token and the position after it |
| `Text.TokensOfTerminated` | src/han_client.cpp:39-102 | tokenising lines that each end in a separator gives back exactly those lines |
| `Text.SplitTokens` | src/han_client.cpp:61-94 | the `strtok` loop collects exactly the tokens of the string, in order |
| `Transport.EncodeU16` | src/transport.cpp:58-62 | a uint16 is written as two bytes, most significant first, that decode back to the same value |
| `Transport.EncodeDecodeU16` | src/transport.cpp:75-77 | reading two bytes as a uint16 and writing it again gives the same two bytes |
| `Transport.Encoded` | src/transport.cpp:52-67 | a frame is the four header bytes followed by exactly the data |
| `Transport.DecodeAt` | src/transport.cpp:69-92 | a frame that decodes has a four-byte header, carries `nbytes - 2` (as a uint16) data bytes, and those bytes lie inside the buffer right after the header |
| `Transport.UnpackAsWritten` | src/transport.cpp:69-92 | as written, `unpack` checks only the four header bytes, so the copy can run past the buffer by a positive number of bytes |
| `Transport.UnpackOverReadsAsWritten` | src/transport.cpp:69-92 | the four-byte buffer 00 10 02 01 announces 14 data bytes it does not have: as written, `unpack` reads 14 bytes past its end, while the corrected decoder refuses it |
| `Transport.DecodeAgreesAsWritten` | src/transport.cpp:69-92 | wherever the as-written `unpack` stays inside the buffer, the corrected decoder accepts the same frames and returns the same frame |
| `Transport.DecodeEncoded` | src/transport.cpp:52-92 | round trip: an encoded frame embedded anywhere in a buffer decodes to its primitive and data, with `nbytes` equal to two plus the data length |
| `Transport.WrittenAtIsSplice` | src/transport.cpp:52-67 | bytes written at an offset leave the buffer's other bytes unchanged |
| `Transport.Message.constructor` | src/transport.cpp:37-44 | a new message has the given primitive and data |
| `Transport.Message.Size` | src/transport.cpp:47-50 | the frame size is four plus the data length |
| `Transport.Message.Pack` | src/transport.cpp:52-67 | `pack` writes nothing and returns 0 when the frame does not fit; otherwise it writes the encoded frame at the offset, leaves the rest of the buffer unchanged, and returns the header size the source's `offset - start` gives |
| `Transport.Message.Unpack` | src/transport.cpp:69-92 | `unpack` changes nothing and returns 0 on a buffer that does not hold the frame; otherwise the fields become the decoded frame |
| `Transport.SendMessage` | src/transport.cpp:203-212 | `send_message` puts exactly the encoded frame on the wire |
| `Transport.HelloEncoded` | src/transport.cpp:114-127 | a HELLO body is the three version bytes followed by the packed UID |
| `Transport.HelloDecodeAt` | src/transport.cpp:129-142 | a HELLO body decodes exactly when its three version bytes are present, and its UID is unpacked from the rest |
| `Transport.HelloDecodeEncoded` | src/transport.cpp:114-142 | round trip of a HELLO body, given a UID codec that round-trips |
| `Transport.HelloMessage.constructor` | src/transport.cpp:101-105 | a new HELLO keeps the given versions and UID |
| `Transport.HelloMessage.Size` | src/transport.cpp:107-112 | the HELLO size is three plus the packed UID's length |
| `Transport.HelloMessage.Pack` | src/transport.cpp:114-127 | the HELLO `pack` writes nothing when the body does not fit, and otherwise writes the encoded body and leaves the rest of the buffer unchanged |
| `Transport.HelloMessage.Unpack` | src/transport.cpp:129-142 | the HELLO `unpack` changes nothing on a short body, and otherwise the fields become the decoded body |
| `Transport.HelloFrameRoundTrip` | src/transport.cpp:214-245 | a HELLO sent by `send_hello` decodes as a HELLO frame whose body decodes to the same versions and UID |
| `Transport.Link.constructor` | inc/transport.h:35-39 | a new link has no peer UID yet |
| `Transport.Transport.constructor` | inc/transport.h:10-23 | a new transport has no links and has received nothing |
| `Transport.Transport.HandleMessage` | src/transport.cpp:227-257 | HELLO gives the link the peer's UID and adds the link; DATA hands the data to the stack in order; every other primitive changes nothing |
| `Transport.Transport.OnRead` | src/transport.cpp:166-191 | a failed read removes the link; an empty read does nothing; a read is unpacked and dispatched as by `handle_message` |
| `Transport.Send` | src/transport.cpp:310-320 | `Link::send` puts a DATA frame on the wire that decodes back to exactly the data |
| `Transport.SendHello` | src/transport.cpp:214-225 | `send_hello` puts a HELLO frame carrying the encoded HELLO body on the wire |
| `Rep.Names` | src/bridge.cpp:1100-1107 | the member names of a payload, one per member and in order, as the bridge walks `values` |
| `Rep.IndexFrom` | src/bridge.cpp:1100-1107 | the search over members finds the first member with the name at or after the start, and finds nothing only when no member there has it |
| `Rep.FindIn` | src/bridge.cpp:1129-1137 | a member is found exactly when its name is among the payload's names, which is the test the bridge makes before adding a path |
| `Rep.Set` | src/bridge.cpp:1123 | after a set, the name has the new value, every other name keeps its value, and URI, types and interfaces are unchanged |
| `Rep.SetNames` | src/bridge.cpp:1123-1143 | a set keeps the member names when the name is there and otherwise appends it at the end |
| `Rep.SetTwice` | src/bridge.cpp:1123 | setting the same name twice is the same as setting it once to the second value |
| `Rep.SetAppends` | src/bridge.cpp:1143 | setting a name that is not there appends exactly one member at the end |
| `Rep.ObjOrNull` | src/bridge.cpp:1142 | `OCRepPayloadSetPropObjectAsOwner` stores an object for a payload and a NULL object for a NULL pointer, and takes both |
| `Introspection.ScalarSchema` | src/introspection.cpp:180-237 | a property type has a schema exactly when it is integer, number, boolean, string or byte string; NULL, object and array fail here |
| `Introspection.ArrayDepth` | src/introspection.cpp:302 | the array loop runs over the leading non-zero dimensions, at most three (MAX_REP_ARRAY_DEPTH), and stops at the first zero |
| `Introspection.ScalarMemberSchemas` | src/introspection.cpp:180-237 | integers, doubles, booleans and strings get their JSON type names; a byte string is a base64-encoded string; a NULL member has no schema |
| `Introspection.MembersSchemaSucceeds` | src/introspection.cpp:239-337 | the walk over an object's members succeeds exactly when every member from that point has a schema |
| `Introspection.MembersSchemaStep` | src/introspection.cpp:251-335 | one step of the walk either fails on the member or stores its schema under its name and goes on |
| `Introspection.NullMemberFails` | src/introspection.cpp:239-337 | one NULL member makes the whole schema fail, while a NULL object leaves the parent as it is and succeeds |
| `Introspection.MembersSchemaEntries` | src/introspection.cpp:239-337 | when the walk succeeds, every member's schema is stored under its name and every other name keeps the parent's value |
| `Introspection.MembersSchemaKeys` | src/introspection.cpp:239-337 | the schema's property names are the parent's followed by the object's members in order |
| `Introspection.ObjectMemberSchema` | src/introspection.cpp:246-297 | an object member has a schema exactly when its members do, and it is an "object" schema whose "properties" are the schema of its members; a member holding a NULL object is `{properties: {}, type: "object"}` |
| `Introspection.NestLevels` | src/introspection.cpp:299-320 | a k-deep nest of arrays reaches the element schema at depth k, and every level above it is an "array" |
| `Introspection.ArrayMemberSchema` | src/introspection.cpp:299-320 | arrays of NULL or arrays fail; otherwise the element schema sits under as many "array" levels as the array has leading non-zero dimensions |
| `Introspection.IntrospectDefinition` | src/introspection.cpp:339-464 | a definition exists exactly when the property schema succeeds; it is an "object" whose properties are that schema, started from the read-only "rt" entry |
| `Introspection.DefinitionSucceeds` | src/introspection.cpp:339-464 | a definition is built exactly when every member of the payload has a schema, a NULL object among them; a NULL payload always gives one |
| `Introspection.DefinitionIgnoresInterfaces` | src/introspection.cpp:399-437 | the definition does not depend on the interface list it is given: the "if" schema built from it is never attached |
| `Introspection.DefinitionResourceType` | src/introspection.cpp:339-464 | with distinct member names, the definition lists the "rt" entry (unless the payload has its own "rt") and every member's schema |
| `Introspection.PostInterfaces` | src/introspection.cpp:516-524 | POST's interfaces are those of the resource without oic.if.ll, oic.if.r and oic.if.s |
| `Introspection.Refs` | src/introspection.cpp:553-567 | there is one `$ref` per resource type, pointing at "#/definitions/" followed by that type |
| `Introspection.SetObjectArray` | src/introspection.cpp:581 | setting an object array fails exactly on a NULL payload |
| `Introspection.PathFrom` | src/introspection.cpp:581-661 | the rest of the path is built exactly when the verb payload exists |
| `Introspection.IntrospectPathAsWrittenFails` | src/introspection.cpp:470-585 | as written, `method` is still NULL when the POST parameters are attached, so `IntrospectPath` always returns NULL |
| `Introspection.IntrospectPath` | src/introspection.cpp:466-661 | with `method` created first, `IntrospectPath` always produces a path |
| `Introspection.PathOfVerbs` | src/introspection.cpp:616-659 | a path holds its POST and GET operations under "post" and "get" |
| `Introspection.OperationMembers` | src/introspection.cpp:581-613 | an operation holds its parameters and its responses |
| `Introspection.IntrospectPathOperations` | src/introspection.cpp:466-661 | POST takes the "if" parameter over the POST interfaces and the body; GET takes the "if" parameter over every interface; both answer with the same responses |
| `Introspection.IntrospectPathEnums` | src/introspection.cpp:526-580 | the "if" parameter enumerates the given interfaces and the body's schema is a `oneOf` over the resource types' refs |
| `Introspection.Introspect` | src/introspection.cpp:141-178 | `Introspect` succeeds exactly when the resource count is known and the document fits the buffer; it runs out of memory exactly when it does not fit, then reporting the size needed; on an internal error the size is unchanged |
| `Introspection.SetIntrospectionData` | src/bridge.cpp:1312-1350 | the buffer loop never ends out of memory: it ends with the whole encoded document, or with an internal error at the first 1024-byte size |
| `Resources.CollapsedLength` | src/resource.cpp:68-76 | the copy loop never writes more than MAX_ADDR_STR_SIZE characters |
| `Resources.Nuls` | src/resource.cpp:68 | the `memset` fill: n NUL characters |
| `Resources.CollapseAddr` | src/resource.cpp:68-76 | the address buffer is a fresh MAX_ADDR_STR_SIZE array holding the copied address, with "%25" collapsed to "%" on IPv6, and NULs after it |
| `Resources.CollapsedStep` | src/resource.cpp:69-76 | one iteration of the copy loop copies one character and skips the "25" of an IPv6 zone escape |
| `Resources.RemoteId` | src/resource.cpp:79 | the remote identity holds at most MAX_IDENTITY_SIZE characters of the device id |
| `Resources.GetDevAddrs` | src/resource.cpp:33-83 | `GetDevAddrs` returns the address list `DevAddrs` defines from the origin, the device id and the resource payload |
| `Resources.DevAddrsShape` | src/resource.cpp:33-83 | the list is never empty; without endpoints it is the (secured) origin alone; otherwise there is one address per endpoint, with its port, its flags and the device id as remote identity |
| `Resources.SecureOriginFlags` | src/resource.cpp:36-49 | a secure resource's origin gains OC_FLAG_SECURE and, on IP, the resource's port; otherwise the port and the address stay as they were |
| `Resources.CollapsedPlain` | src/resource.cpp:68-76 | an address without an IPv6 "%25" escape is copied unchanged |
| `Resources.NewResource` | src/resource.cpp:85-97 | a `Resource` takes the payload's URI, types and interfaces and the addresses `GetDevAddrs` computes |
| `Resources.NewDevice` | src/resource.cpp:111-119 | a `Device` takes the discovery payload's device id and one resource per resource payload |
| `Resources.DeviceOfResources` | src/resource.cpp:85-119 | every resource of a new device keeps its payload's URI and types and has at least one address |
| `Resources.AnySecure` | src/resource.cpp:99-109 | the scan finds a secure address exactly when one exists from that point on |
| `Resources.IsSecure` | src/resource.cpp:99-109 | a resource is secure exactly when one of its addresses carries OC_FLAG_SECURE |
| `Resources.SecurePayloadIsSecure` | src/resource.cpp:36-109 | a secure resource discovered without endpoints is secure |
| `Resources.FindUriFrom` | src/resource.cpp:223-228 | the search from i returns the first index at or after i with the URI, or the end |
| `Resources.FindResourceFromUri` | src/resource.cpp:223-228 | `FindResourceFromUri` returns the first resource with the URI, or the end when there is none |
| `Resources.FindTypeFrom` | src/resource.cpp:230-235 | the search from i returns the first index at or after i carrying the type, or the end |
| `Resources.FindResourceFromType` | src/resource.cpp:230-235 | `FindResourceFromType` returns the first resource carrying the type, or the end when there is none |
| `Resources.GetResourceUri` | src/resource.cpp:121-131 | `GetResourceUri` finds a resource exactly when one has the URI, and then the first one |
| `Resources.GetResourceType` | src/resource.cpp:133-143 | `GetResourceType` finds a resource exactly when one carries the type, and then the first one |
| `Resources.IsVirtual` | src/resource.cpp:145-153 | a device is virtual exactly when its first /oic/d resource carries oic.d.virtual |
| `Resources.Remove` | src/resource.cpp:201 | `erase` removes exactly the element at k and shifts the rest down by one |
| `Resources.SetCollectionLinks` | src/resource.cpp:155-221 | the method reports success and returns the new top level exactly as `MoveLinks` does; it fails on a link without an href, and where the source asserts that the collection is still there |
| `Resources.MoveOneUris` | src/resource.cpp:198-203 | after one move, the URIs are the old ones with entry k gone |
| `Resources.MoveOneFinds` | src/resource.cpp:197-203 | with distinct URIs, a URI is found after a move exactly when it was found before and is not the moved one |
| `Resources.MoveOneKeeps` | src/resource.cpp:197-204 | moving a resource other than the collection keeps URIs distinct, keeps the collection, gives it one more child, and makes only the moved URI unfindable |
| `Resources.MoveLinksMoves` | src/resource.cpp:186-208 | after a successful reparenting, URIs are still distinct, the collection is still there, the top level shrinks by as many resources as the collection gains, and no link's href is left at the top level |
| `Resources.SelfLinkLoses` | src/resource.cpp:198-204 | a link naming the collection itself moves the collection into its own children, so it is no longer found |
| `Resources.MoveLinksKeepsGone` | src/resource.cpp:186-208 | a URI that is not at the top level never comes back while the links are followed |
| `Resources.MissingHrefFails` | src/resource.cpp:188-196 | a link with neither an "href" nor a URI stops the loop with failure |
| `Resources.Unlinked` | src/resource.cpp:201 | the filter keeps no resource whose URI is among the names, and never adds one |
| `Resources.HrefSet` | src/resource.cpp:188-192 | every href a link names is in the set |
| `Resources.Targets` | src/resource.cpp:197-200 | the resources the links pick are at most one per link, taken from the top level, never the collection and never a URI already named by an earlier link |
| `Resources.UnlinkedConcat` | src/resource.cpp:201 | filtering distributes over concatenation |
| `Resources.UnlinkedIgnores` | src/resource.cpp:198 | a name that no resource carries filters nothing |
| `Resources.UnlinkedNothing` | src/resource.cpp:201 | filtering by no name keeps everything |
| `Resources.UnlinkedRemove` | src/resource.cpp:201 | with distinct URIs, erasing entry k is the same as filtering out its URI |
| `Resources.TargetsSeenAbsent` | src/resource.cpp:197-198 | a URI no resource has makes no difference to which resources the links pick |
| `Resources.MoveOneSame` | src/resource.cpp:200-203 | a move leaves every other resource unchanged and still findable under its URI |
| `Resources.TargetsAfterMove` | src/resource.cpp:186-207 | after a move, the links still to come pick the same resources from the new top level as from the old one with the moved URI already named |
| `Resources.MoveOneContents` | src/resource.cpp:198-203 | one move, filtered, puts the moved resource at the front of what the collection gains and filters its URI out of the top level |
| `Resources.MoveLinksContents` | src/resource.cpp:155-221 | with distinct URIs, a successful reparenting leaves the top level in its order without any linked resource, and gives the collection its old children followed by the linked resources in link order (see the note on distinct URIs below) |
| `Resources.Issued` | src/resource.cpp:333-355 | once destinations exist, a context has issued one request per destination tried |
| `Resources.DoContext.constructor` | src/resource.cpp:357-379 | `DoResource` starts at the first destination, or without one when the list is empty, and issues one request |
| `Resources.DoContext.Issue` | src/resource.cpp:333-355 | each issue takes the next destination and moves past it; past the end it sends without a destination |
| `Resources.DoContext.OnResponse` | src/resource.cpp:303-331 | a retryable response while destinations remain goes to the next destination, and is hidden from the caller when the stack accepts the retry; every other response reaches the caller's callback with nothing retried |
| `Resources.IssuedInOrder` | src/resource.cpp:333-355 | destinations are tried once each, in list order, none skipped |
| `Resources.RetriedResults` | src/resource.cpp:311-316 | a response is retried exactly when its result is above OC_STACK_RESOURCE_CHANGED (4) and is not OC_STACK_INVALID_QUERY (21), and only while destinations remain |
| `Resources.FindFrom` | src/resource.cpp:416-421 | `find` and `find_first_of` return the first index from `from` holding one of the characters, or npos when none does |
| `Resources.QueryPairs` | src/resource.cpp:413-436 | the loop always stores at least one pair, even for an empty query |
| `Resources.NextPair` | src/resource.cpp:415-434 | when the loop goes on, the next pass starts strictly later and inside the string |
| `Resources.ParseQuery` | src/resource.cpp:405-450 | `ParseQuery` returns the map `QueryMap` defines: the pairs folded in order, then the baseline "if" for a typed resource that has none |
| `Resources.ReadPair` | src/resource.cpp:415-434 | one pass of the loop reads the pair and next position `NextPair` defines |
| `Resources.FoldStep` | src/resource.cpp:413-436 | folding the query is storing its first pair and then folding the rest |
| `Resources.FoldLast` | src/resource.cpp:435 | a key is in the map exactly when it was given; a key given several times keeps its last value |
| `Resources.KeyAt` | src/resource.cpp:416-423 | the key is read up to its '=' |
| `Resources.PairAt` | src/resource.cpp:415-434 | a `key=value&` is read as that pair, and parsing goes on after the '&' |
| `Resources.LastPairAt` | src/resource.cpp:415-434 | a final `key=value` is read as the last pair |
| `Resources.QueryPairsJoin` | src/resource.cpp:413-436 | a query made by joining plain pairs with '&' parses back to those pairs in order |
| `Resources.ParseJoinedQuery` | src/resource.cpp:405-450 | such a query maps each key to the last value given for it, with "if" defaulted for a typed resource |
| `Resources.TrailingKey` | src/resource.cpp:416-419 | a trailing key without '=' is stored with an empty value |
| `Resources.DefaultInterface` | src/resource.cpp:437-449 | without a query, "if" is present exactly when the resource has a type, and then it is the baseline interface |
| `Resources.IsValidRequest` | src/resource.cpp:621-679 | the verdict is undefined exactly when "if" is missing and the resource has interfaces (the end iterator is read); otherwise a request is valid exactly when its "if" is one of the resource's interfaces and any "rt" is one of its types |
| `Resources.TypedResourceHasInterface` | src/resource.cpp:437-449 | a resource with a type always gets an "if" entry, so it always gets a verdict |
| `Resources.CreatePayload` | src/resource.cpp:771-797 | the payload is empty unless the query asks for the baseline interface; then it holds exactly the resource's types and interfaces as "rt" and "if" |
| `Resources.ParsedEndpoints` | src/resource.cpp:579-596 | the endpoints parse exactly when each does, and then one for one, in order |
| `Resources.ParseLink` | src/resource.cpp:508-619 | `ParseLink` fails exactly when an endpoint fails to parse; otherwise the URI is the "href" (else the payload's URI) and rel, anchor, types, interfaces, policy and endpoints are read as the link gives them |
| `Resources.ReadPolicy` | src/resource.cpp:558-576 | bitmap, secure flag and port keep their zero defaults unless the policy object sets them |
| `DeviceInformation.AttrIndex` | src/device_information.cpp:207 | `find_if` with `HasAttribute` returns the first attribute from i with the id, or the end |
| `DeviceInformation.FindAttribute` | src/device_information.cpp:207-209 | a lookup finds an attribute exactly when one has the id, and what it finds has that id |
| `DeviceInformation.FindFirstAttribute` | src/device_information.cpp:207-209 | the lookup returns the first attribute with the id, whatever follows it |
| `DeviceInformation.ProtocolIndependentId` | src/device_information.cpp:203-236 | the piid fails exactly when there is no UID attribute; otherwise it is the formatted id of that UID |
| `DeviceInformation.UriPiidIsNameBased` | src/device_information.cpp:224-226 | a URI UID gives the as-written SHA-1 name-based id of the URI, with the version nibble 5 in byte 7 and the RFC 4122 variant in byte 8 |
| `DeviceInformation.SameUriSameUuid` | src/device_information.cpp:203-236 | two attribute lists whose first UID is the same URI give the same id |
| `DeviceInformation.DeviceProtocolIndependentId` | src/device_information.cpp:238-253 | the device piid fails exactly when the IPUI or the EMC is missing; otherwise it is the formatted hash of the 5 IPUI and 2 EMC bytes |
| `DeviceInformation.PlatformId` | src/device_information.cpp:255-286 | the platform id formats whatever id there is, the uninitialised one when there is no usable UID |
| `DeviceInformation.DevicePlatformId` | src/device_information.cpp:288-302 | the device platform id is the hash when both IPUI and EMC are there and the uninitialised id otherwise |
| `DeviceInformation.ModelNumber` | src/device_information.cpp:304-313 | the model number is the first serial-number attribute, or the string as it was when there is none |
| `DeviceInformation.Apply` | src/device_information.cpp:73-201 | every field whose property the representation lacks keeps its value |
| `DeviceInformation.ApplyReadsBack` | src/device_information.cpp:73-201 | every property present is read back from its field as a C string, and applying the same representation again changes nothing |
| `DeviceInformation.ManufacturerNeedsLanguage` | src/device_information.cpp:90-113 | a "dmn" array whose first entry has no "language" leaves the manufacturer unchanged |
| `DeviceInformation.DeviceInformation.constructor` | src/device_information.cpp:8-11 | a new object has six empty fields |
| `DeviceInformation.DeviceInformation.SetApplicationVersion` | src/device_information.cpp:13-16 | only the application version changes, to the C string given |
| `DeviceInformation.DeviceInformation.SetDeviceUid` | src/device_information.cpp:23-26 | only the device UID changes, to the C string given |
| `DeviceInformation.DeviceInformation.SetFriendlyName` | src/device_information.cpp:33-36 | only the friendly name changes, to the C string given |
| `DeviceInformation.DeviceInformation.SetHardwareVersion` | src/device_information.cpp:43-46 | only the hardware version changes, to the C string given |
| `DeviceInformation.DeviceInformation.SetManufacturerName` | src/device_information.cpp:53-56 | only the manufacturer name changes, to the C string given |
| `DeviceInformation.DeviceInformation.SetSerialNumber` | src/device_information.cpp:63-66 | only the serial number changes, to the C string given |
| `DeviceInformation.DeviceInformation.Set` | src/device_information.cpp:73-201 | `Set` leaves the fields as `Apply` defines from the old fields and the representation |
| `PropertyStore.RunAllAccepted` | src/device_resource.cpp:91-175 | when the stack accepts every write, the result is OC_STACK_OK and the store holds all of them, later ones over earlier ones |
| `PropertyStore.RunStopsAtRefusal` | src/device_resource.cpp:91-175 | the first refused write's result is returned, and only the writes before it are stored |
| `PropertyStore.StoredKeeps` | src/device_resource.cpp:91-175 | a property that no write names keeps its value |
| `PropertyStore.WriteStep` | src/device_resource.cpp:100-105 | one write followed by `if (result != OC_STACK_OK) return result`: a refusal ends the sequence with its result, an acceptance leaves the rest to run |
| `PropertyStore.Store.constructor` | src/device_resource.cpp:100 | a new store holds nothing and answers with the given outcome |
| `PropertyStore.Store.SetPropertyValue` | src/device_resource.cpp:100 | `OCSetPropertyValue` returns the stack's outcome and stores the C string only when it is OC_STACK_OK |
| `DeviceResource.UnitZero` | src/device_resource.cpp:23-24 | the search returns the first unit from i with id 0, or the end |
| `DeviceResource.DeviceName` | src/device_resource.cpp:11-30 | the device name is the friendly name of the first unit 0, or the string as it was when there is no such unit or no friendly-name attribute |
| `DeviceResource.DataModelVersion` | src/device_resource.cpp:32-54 | the data-model version gains the labelled core, profile and interface versions exactly when all three attributes exist |
| `DeviceResource.VersionTextReadsBack` | src/device_resource.cpp:40-53 | the labelled text starts with its core label and `atoi` right after each label reads back the version written there |
| `DeviceResource.CoreReadsBack` | src/device_resource.cpp:40-53 | the core version reads back after its label |
| `DeviceResource.ProfileReadsBack` | src/device_resource.cpp:40-53 | the profile version reads back after its label |
| `DeviceResource.InterfaceReadsBack` | src/device_resource.cpp:40-53 | the interface version reads back after its label |
| `DeviceResource.DataModelVersionReadsBack` | src/device_resource.cpp:32-54 | each version written into the data-model version reads back from it |
| `DeviceResource.SoftwareVersion` | src/device_resource.cpp:68-77 | the software version is the first application-version attribute, or the string as it was |
| `DeviceResource.LocalList` | src/device_resource.cpp:56-89 | the helper builds ["en", text] exactly when the attribute exists, and otherwise nothing (it builds it in its own copy of the list pointer) |
| `DeviceResource.OptionalWritesNames` | src/device_resource.cpp:145-175 | "sv" and "dmno" are written exactly when they are non-empty, and they are the only optional writes |
| `DeviceResource.DeviceWritesNames` | src/device_resource.cpp:91-175 | "n" comes first and only when non-empty; "icv", "piid" and "dmv" are always written; "sv" and "dmno" only when non-empty; "ld", "dmn" and "di" never |
| `DeviceResource.BodyNames` | src/device_resource.cpp:107-175 | the fixed part of the write list holds "icv", "piid" and "dmv", and only those names and the optional ones occur |
| `DeviceResource.SetDeviceProperties` | src/device_resource.cpp:91-175 | the store and the result are those of the fail-fast run of the device writes, with the as-written piid |
| `DeviceResource.SetFixedDeviceProperties` | src/device_resource.cpp:177-214 | for a device row, the store and the result are those of the fail-fast run of "n", "icv", the hashed piid and "dmv" |
| `PlatformResource.ManufacturerText` | src/platform_resource.cpp:7-20 | the manufacturer is the first manufacturer-name attribute, or the bridge's own manufacturer |
| `PlatformResource.HardwareText` | src/platform_resource.cpp:22-31 | the hardware version is the first hardware-version attribute, or the string as it was |
| `PlatformResource.VendorId` | src/platform_resource.cpp:33-42 | the vendor id is empty exactly for an EMC of 0, decimal digits otherwise, and the string as it was without an EMC attribute |
| `PlatformResource.VendorIdReadsBack` | src/platform_resource.cpp:40 | `atoi` of the vendor id gives back a non-zero EMC |
| `PlatformResource.VendorIdInjective` | src/platform_resource.cpp:40 | two non-zero EMCs give the same vendor id exactly when they are equal |
| `PlatformResource.OptionalPlatformNames` | src/platform_resource.cpp:67-106 | "mnmo", "mnhw" and "vid" are each written exactly when non-empty |
| `PlatformResource.PlatformWritesNames` | src/platform_resource.cpp:44-109 | "pi" is written first and "mnmn" second, always; "mnmo", "mnhw" and "vid" only when non-empty; nothing else |
| `PlatformResource.SetPlatformProperties` | src/platform_resource.cpp:44-109 | the store and the result are those of the fail-fast run of the platform writes |
| `PlatformResource.SetDevicePlatformProperties` | src/platform_resource.cpp:111-123 | for a device row, "pi" is the only write: the hashed id when both IPUI and EMC are there, the uninitialised id otherwise |
| `Registration.RegistrationPayload` | src/registration_resource.cpp:47-74 | the GET payload has "open" set to the state, "rt" set to the registration type and "if" to the read-write interface, and no other member |
| `Registration.OnlyTypesAndInterfaces` | src/resource.cpp:771-797 | `CreatePayload` sets no member but "rt" and "if" |
| `Registration.InvalidRequestTouchesNothing` | src/registration_resource.cpp:106-110 | a request that `IsValidRequest` refuses is a bad request: no response, no notification, no change, nothing sent |
| `Registration.GetShowsState` | src/registration_resource.cpp:119-140 | GET answers OK with the current state and changes nothing |
| `Registration.PostWithoutOpenFails` | src/registration_resource.cpp:141-152 | a POST without a representation holding a boolean "open" is an error and changes nothing |
| `Registration.PostSetsState` | src/registration_resource.cpp:89-101 | an accepted POST takes the new state, answers OK with it, tells the HAN-FUN client to open or close registration even when the state is unchanged, and notifies observers exactly when it changed |
| `Registration.OtherMethodsNotAllowed` | src/registration_resource.cpp:170-172 | every other method is not allowed and changes nothing |
| `Registration.NotifyExactlyOnChange` | src/registration_resource.cpp:103-180 | observers are notified exactly when the state changes; only an OK changes it; a failure sends nothing |
| `Registration.RepeatIsQuiet` | src/registration_resource.cpp:103-180 | repeating a request changes nothing more and notifies nobody |
| `Registration.RegistrationQueriesDecided` | src/resource.cpp:437-449 | the registration resource always gets an "if" default, so query checks are always decided |
| `Registration.RegistrationResource.constructor` | src/registration_resource.cpp:28-32 | a new resource is closed and has sent nothing |
| `Registration.RegistrationResource.HFSetRegistration` | src/registration_resource.cpp:76-86 | the state's request (OPEN_REG or CLOSE_REG) is sent once, and the state is unchanged |
| `Registration.RegistrationResource.GetRegistration` | src/registration_resource.cpp:47-74 | the payload is `RegistrationPayload` for the current state |
| `Registration.RegistrationResource.PostRegistration` | src/registration_resource.cpp:89-101 | it succeeds exactly on a boolean "open"; then the state becomes it, `has_changed` says whether it differed, and the matching request is sent |
| `Registration.RegistrationResource.EntityHandler` | src/registration_resource.cpp:103-180 | the handler's result, response, notification, new state and sent requests are those `Handle` defines |
| `Launcher.FilenameParts` | samples/hanfun_bridge.cpp:141-153 | a storage path is the prefix, then the uuid and `_` when a uuid is given, then the suffix when one is given |
| `Launcher.DistinctUuidsDistinctFiles` | samples/hanfun_bridge.cpp:141-153 | two different uuids of one length never share a storage file |
| `Launcher.FirstWord` | samples/hanfun_bridge.cpp:257 | the word `fscanf("%s")` reads is non-empty and holds no white space |
| `Launcher.WordPrefix` | samples/hanfun_bridge.cpp:257 | the word read is a prefix of the text, free of white space, and stops only at white space or the end |
| `Launcher.DecodeSeenState` | samples/hanfun_bridge.cpp:248-267 | no seen-state file is NOT_SEEN, and with a word in the file the state is SEEN_VIRTUAL exactly when the word is "virtual" |
| `Launcher.SeenStateRoundTrip` | samples/hanfun_bridge.cpp:345 | what a plugin writes to its seen-state file reads back as the kind it was started as |
| `Launcher.Step` | samples/hanfun_bridge.cpp:290-333 | one option moves the argument index by one, or by two for an option that takes a value and has one |
| `Launcher.ParseArguments` | samples/hanfun_bridge.cpp:288-334 | the argument loop gives the options of the argument grammar, starting at argv[1] |
| `Launcher.Protocols` | samples/hanfun_bridge.cpp:336-339 | the protocols used are HF, OC or both, never none |
| `Launcher.ProtocolsFromFlags` | samples/hanfun_bridge.cpp:290-303 | parsing sets no other protocol bit, and sets HF or OC only where `--hf` or `--oc` appears |
| `Launcher.ProtocolBitsStep` | samples/hanfun_bridge.cpp:296-303 | one option leaves the protocols alone or adds HF for `--hf` or OC for `--oc` |
| `Launcher.DefaultProtocols` | samples/hanfun_bridge.cpp:336-339 | without `--hf` and `--oc` both protocols are used |
| `Launcher.StepValues` | samples/hanfun_bridge.cpp:292-332 | one option changes the uuid, resource directory, storage prefix, sender or secure mode only when it is that option and its value follows |
| `Launcher.UuidFromArguments` | samples/hanfun_bridge.cpp:304-307 | a uuid that was set is the value after some `--uuid` |
| `Launcher.RdFromArguments` | samples/hanfun_bridge.cpp:313-316 | a resource-directory id that was set is the value after some `--rd` |
| `Launcher.PrefixFromArguments` | samples/hanfun_bridge.cpp:292-295 | a storage prefix that was set is the value after some `--ps` |
| `Launcher.SenderFromArguments` | samples/hanfun_bridge.cpp:308-312 | a sender that was set is `strtol` of the value after some `--sender`, as a 16-bit address |
| `Launcher.SenderValue` | samples/hanfun_bridge.cpp:311 | a decimal sender address below 65536 reads back; a value past the range of `long` saturates in `strtol` and becomes 65535 (above) or 0 (below) after the cast to `uint16_t` |
| `Launcher.SecureModeFromArguments` | samples/hanfun_bridge.cpp:321-332 | a secure mode that changed follows `--secureMode true` or `--secureMode false` |
| `Launcher.DanglingOptionIgnored` | samples/hanfun_bridge.cpp:290-333 | an option that takes a value but comes last changes nothing |
| `Launcher.Mode` | samples/hanfun_bridge.cpp:412-422 | a plugin bridge is built exactly when a uuid and a non-zero sender are given, and the manager otherwise, with at least one protocol |
| `Launcher.PluginSeenAsItsKind` | samples/hanfun_bridge.cpp:340-347 | a plugin started with a uuid and a sender is seen by the manager as the kind it was started as, and no other uuid's seen state changes |
| `Launcher.EscapeCollapses` | samples/hanfun_bridge.cpp:192-202 | collapsing the escaped zone separator gives back the host text, so the resource directory address reads back as the discovered host |
| `Launcher.RdAddressHost` | samples/hanfun_bridge.cpp:188-205 | an IPv6 resource directory address is the escaped host in brackets, and it reads back as the host |
| `Launcher.FormatRdAddress` | samples/hanfun_bridge.cpp:188-210 | the address written is `[host]:port` with `%` escaped as `%25` for IPv6, and `host:port` otherwise |
| `Launcher.DiscoverResourceDirectory` | samples/hanfun_bridge.cpp:172-217 | the transaction ends, with the address set, exactly for a successful discovery answer from the resource directory named by `--rd`; every other response keeps it open |
| `Bridge.NextFrom` | src/bridge.cpp:74-98 | the iterator stops only on a translatable pair at or after where it starts |
| `Bridge.NextFromIsFirst` | src/bridge.cpp:74-98 | the iterator skips no translatable pair: it stops no later than the first one, so End() means none is left |
| `Bridge.PairsFrom` | src/bridge.cpp:74-98 | every pair the walk visits is translatable and at or after its start |
| `Bridge.EndLeavesNoPairs` | src/bridge.cpp:64-69 | at End() no pair is left to visit |
| `Bridge.IteratorVisitsPairs` | src/bridge.cpp:115-125 | `for (it = Begin(); it != End(); ++it)` visits the pairs in order: the first where the iterator stops, the rest one step on |
| `Bridge.InsecureSkipped` | src/bridge.cpp:82 | in secure mode an insecure resource contributes no pair |
| `Bridge.PairUri` | src/bridge.cpp:99-107 | the URI of a pair is the resource's URI, with `?rt=<type>` exactly when the resource has more than one type |
| `Bridge.CollectionFrom` | src/bridge.cpp:863-875 | the collection found is the first resource from the start carrying oic.r.hanfunobject, and none means no such resource is left |
| `Bridge.InferenceStage` | src/bridge.cpp:941-949 | the inference fallback carries on the same discovery |
| `Bridge.IntrospectionStage` | src/bridge.cpp:929-952 | the introspection stage carries on the same discovery |
| `Bridge.CollectionStage` | src/bridge.cpp:860-884 | the collection stage carries on the same discovery |
| `Bridge.PlatformConfigurationStage` | src/bridge.cpp:814-829 | the platform-configuration stage carries on the same discovery |
| `Bridge.ConfigurationStage` | src/bridge.cpp:767-775 | the device-configuration stage carries on the same discovery |
| `Bridge.StageOrder` | src/bridge.cpp:767-829 | after /oic/p come device configuration, then platform configuration, then the collections, each skipped exactly when the device has no resource of its type |
| `Bridge.CollectionThenIntrospection` | src/bridge.cpp:860-884 | the collection stage fetches the first oic.r.hanfunobject resource, else introspection when there is an introspection resource, else inference |
| `Bridge.InferenceStart` | src/bridge.cpp:941-949 | inference starts with empty paths and definitions at the first translatable pair, and has no start exactly when there is no translatable pair |
| `Bridge.Resume` | src/bridge.cpp:904 | resuming after a collection starts just past the collection's position once its links have moved |
| `Bridge.LinkFirstIntoSecond` | src/resource.cpp:186-207 | linking the first resource into the second moves it under the collection and shifts the collection to the front |
| `Bridge.StaleIteratorSkipsAsWritten` | src/bridge.cpp:900-916 | when a link moves a resource listed before the collection, `++context->rit` skips the next oic.r.hanfunobject resource that resuming after the collection finds |
| `Bridge.StaleIteratorOverrunsAsWritten` | src/bridge.cpp:904 | when the collection was last in the list, `++context->rit` lands past the end |
| `Bridge.ResumeSkipsNothing` | src/bridge.cpp:904-916 | resuming after the collection's new position finds the next oic.r.hanfunobject resource after it, and skips none |
| `Bridge.RepPayload` | src/bridge.cpp:589-615 | a payload is passed on exactly for an OK response carrying a representation |
| `Bridge.Try` | src/bridge.cpp:617-629 | the fetch the stack accepts is one of the fetches, and a real request |
| `Bridge.TryDeclined` | src/bridge.cpp:617-629 | when the stack accepts no fetch, every request is issued in order, each was declined, and no context is keyed |
| `Bridge.TryAccepted` | src/bridge.cpp:617-629 | when the stack accepts a fetch, its request is the last issued and only its context is keyed, under that request's handle |
| `Bridge.TryAcceptedStack` | src/bridge.cpp:617-629 | the stack accepted the request Try stopped at and declined every earlier one |
| `Bridge.TryAcceptedIssues` | src/bridge.cpp:617-629 | the requests issued are those of the fetches up to the accepted one, in order |
| `Bridge.CompletionKeepsPending` | src/bridge.cpp:776-784 | a completion erases its own handle; its context stays in flight exactly when the stack accepted a next request, and no other context comes into flight |
| `Bridge.AcceptedKeepsPending` | src/bridge.cpp:776-784 | in the accepted case the context is only re-keyed under the new handle |
| `Bridge.RekeyKeepsPending` | src/bridge.cpp:624-627 | re-keying a context under the handle of its newest request, then erasing the old handle, keeps the table sound |
| `Bridge.FreshKeepsPending` | src/bridge.cpp:671-683 | a new context's fetch keeps the table sound, and only that context comes into flight |
| `Bridge.DropKeepsPending` | src/bridge.cpp:204-217 | erasing entries from a sound table keeps it sound, and no context comes into flight |
| `Bridge.TasksFollowTable` | inc/bridge.h:78-87 | the tasks stay sound when the table only loses contexts or gains ones no task holds |
| `Bridge.IdentsGrow` | src/bridge.cpp:671 | a new context is in no entry and no task |
| `Bridge.FreshContextKeepsValid` | src/bridge.cpp:671-683 | the GET of /oic/d for a new context keeps the table and the tasks sound |
| `Bridge.DeferKeepsTasks` | src/bridge.cpp:715-716 | queuing a DiscoverTask for a context out of flight and held by no task keeps the tasks sound |
| `Bridge.RDPublishIndex` | src/bridge.cpp:1299 | the pending publication is the first RDPublishTask in the queue, if any |
| `Bridge.RepublishKeepsOne` | src/bridge.cpp:1295-1309 | RDPublish keeps exactly one publication queued, due at the new tick, and leaves every other task where it was |
| `Bridge.RemoveTask` | src/bridge.cpp:464 | an erase removes exactly one task |
| `Bridge.RemoveTaskShifts` | src/bridge.cpp:464 | an erase keeps the tasks before it and shifts the ones after it down by one |
| `Bridge.RemoveKeepsTasks` | src/bridge.cpp:462-464 | removing a task keeps the rest sound, and removing the RDPublishTask clears the pending pointer |
| `Bridge.SeenStateOf` | src/bridge.cpp:1218-1236 | a NULL piid is NOT_SEEN, and any other piid gets the launcher's answer |
| `Bridge.DeviceDecisions` | src/bridge.cpp:707-737 | after /oic/d, only an unseen virtual device is deferred, SEEN_NATIVE ends the branch, and kill_cb runs exactly for a native device seen as virtual |
| `Bridge.DeferredDiffersOnNative` | src/bridge.cpp:1257-1275 | the deferred step decides like GetDeviceCB except on SEEN_NATIVE, which it does not stop |
| `Bridge.PlatformFetch` | src/bridge.cpp:738 | the next step is the GET of /oic/p for the same discovery |
| `Bridge.CoapUrls` | src/bridge.cpp:978-1004 | the walk yields at most one url per urlInfo entry |
| `Bridge.CoapUrlsStep` | src/bridge.cpp:980-999 | a urlInfo entry without protocol or url ends the walk; a coap or coaps entry adds its url; any other entry is skipped |
| `Bridge.CoapUrlsFromCoap` | src/bridge.cpp:986-999 | every url tried comes from an entry whose protocol is coap or coaps |
| `Bridge.IntrospectionPlan` | src/bridge.cpp:954-1037 | GetIntrospectionCB tries GETs of the introspection data at the responding address, then falls back to inference as the last attempt |
| `Bridge.IntrospectionPlanUrls` | src/bridge.cpp:973-999 | the urls tried are exactly the coap and coaps urls of the urlInfo array, in order |
| `Bridge.IntrospectionDataPlan` | src/bridge.cpp:1039-1079 | the walk ends exactly when the response carries a document that parses; otherwise it falls back to inference |
| `Bridge.AddAll` | src/bridge.cpp:1118 | inserting into the interface set keeps it free of duplicates and gives the union |
| `Bridge.InterfaceList` | src/bridge.cpp:1112-1121 | the interface set is free of duplicates and holds exactly the interfaces of the visited resources carrying the type |
| `Bridge.Infer` | src/bridge.cpp:1099-1147 | inference changes only the paths and definitions of the context |
| `Bridge.InferAddsOnce` | src/bridge.cpp:1099-1147 | a definition is added only for a type without one, the built one or NULL when it cannot be built; a path is added, as NULL, only for a URI without one; nothing else changes |
| `Bridge.InferNext` | src/bridge.cpp:1149-1156 | the next step, if any, is a GET of the next pair for the same discovery |
| `Bridge.IntrospectionDocument` | src/bridge.cpp:1159-1175 | the document parsed at the end holds the gathered paths and definitions |
| `Bridge.NewContext` | src/bridge.cpp:38-39 | a new context is for the device the discovery payload describes, with its own ident |
| `Bridge.Sightings` | src/bridge.cpp:658-684 | the next ident never goes back |
| `Bridge.DeviceFetch` | src/bridge.cpp:676-677 | a new context starts with a GET of /oic/d |
| `Bridge.TryOne` | src/bridge.cpp:617-629 | one fetch issues its request and keys its context exactly when the stack accepts it |
| `Bridge.OneSighting` | src/bridge.cpp:663-684 | a payload that is not the bridge's own, is for a device not in flight and offers a translatable resource gets a new context and a GET of /oic/d; any other changes nothing |
| `Bridge.SightingsNext` | src/bridge.cpp:658-684 | the loop over sightings goes on from each sighting's outcome |
| `Bridge.SeenWithinNext` | src/bridge.cpp:658-663 | one more sighting adds its id to the ids seen |
| `Bridge.WithoutIds` | src/bridge.cpp:218-231 | the erase loop never adds a presence |
| `Bridge.WithoutIdsKeeps` | src/bridge.cpp:218-231 | Destroy(id) keeps exactly the presences with other ids |
| `Bridge.WithoutIdsTwice` | src/bridge.cpp:452-456 | destroying ids one after another is destroying them all |
| `Bridge.WithoutDevices` | src/bridge.cpp:204-217 | Destroy(id) keeps exactly the entries for other devices, unchanged |
| `Bridge.WithoutDevicesTwice` | src/bridge.cpp:452-456 | destroying devices one after another is destroying them all |
| `Bridge.AbsentIds` | src/bridge.cpp:444-451 | at most one absent id per presence |
| `Bridge.AbsentIdsExact` | src/bridge.cpp:444-451 | the absent ids are exactly the ids of the presences not present now |
| `Bridge.NotDue` | src/bridge.cpp:457-470 | the task loop never adds a task |
| `Bridge.NotDueKeeps` | src/bridge.cpp:457-470 | the tasks left queued are exactly those not yet due |
| `Bridge.TablePiid` | src/bridge.cpp:1385-1386 | a row has a piid exactly when it has both an IPUI and an EMC |
| `Bridge.RowEventsHas` | src/bridge.cpp:1391-1418 | a row starts a bridge process unless it has no piid or is SEEN_NATIVE, and is killed first only when seen as virtual |
| `Bridge.TablePiids` | src/bridge.cpp:1381-1386 | one piid per row |
| `Bridge.TableEventsStep` | src/bridge.cpp:1381-1424 | one more row walked adds that row's calls, with sender dev_index + i + 1 |
| `Bridge.TableEventsExec` | src/bridge.cpp:1381-1424 | a call is made for the page exactly when some row makes it |
| `Bridge.WithoutAddress` | src/bridge.cpp:251-264 | the erase loop never adds a virtual device |
| `Bridge.WithoutAddressKeeps` | src/bridge.cpp:251-264 | Destroy(address) keeps exactly the virtual devices at other addresses |
| `Bridge.ResourcesWithout` | src/bridge.cpp:237-250 | the erase loop never adds a virtual resource |
| `Bridge.ResourcesWithoutKeeps` | src/bridge.cpp:237-250 | Destroy(address) removes every virtual resource at the address and keeps every other one, as often as it was there |
| `Bridge.TableRequest` | src/bridge.cpp:402-410 | get_device_table asks for a start index that fits in a byte |
| `Bridge.TableRequestRows` | src/bridge.cpp:402-410 | the manager asks for five rows from the first, a plugin for the one row before its own sender |
| `Bridge.HanFunProgress` | src/bridge.cpp:388-418 | CREATED moves to STARTED once the client is initialised; STARTED asks for the table exactly when due, then not for 30 seconds; RUNNING does nothing |
| `Bridge.DeferredDroppedAsWritten` | src/bridge.cpp:1244-1255 | a queued deferred context is never in discovered_ (GetDeviceCB erased its handle), so DiscoverTask::Run always takes the missing-context branch and only deletes it |
| `Bridge.DeferredResumes` | src/bridge.cpp:1257-1281 | without the lookup, the deferred step issues the GET of /oic/p, keeps the context exactly when the stack accepts it, and calls kill_cb exactly for a native device seen as virtual |
| `Bridge.NothingDueDrainsNothing` | src/bridge.cpp:457-470 | a loop over tasks none of which is due runs nothing |
| `Bridge.NothingDueKeepsAll` | src/bridge.cpp:457-470 | tasks none of which is due all stay queued, in order |
| `Bridge.DrainCallsOut` | src/bridge.cpp:457-470 | the task loop calls out only kill_cb or the publication, and publishes only when an RDPublishTask was due |
| `Bridge.TaskKeepsValid` | src/bridge.cpp:460-465 | running the corrected task and erasing it keeps the table and the tasks sound |
| `Bridge.TaskAsWrittenKeepsValid` | src/bridge.cpp:460-465 | running a task as written and erasing it keeps the table and the tasks sound |
| `Bridge.AfterPayload` | src/bridge.cpp:762-765 | the stage goes on exactly when the response carries a representation |
| `Bridge.CollectionPlan` | src/bridge.cpp:886-927 | GetCollectionCB carries on the same discovery, and only with a representation |
| `Bridge.GetPlan` | src/bridge.cpp:1081-1185 | GetCB carries on the same discovery |
| `Bridge.GetEndsOrGoesOn` | src/bridge.cpp:1149-1176 | GetCB issues at most one GET, and the walk ends exactly when it issues none, keeping the device |
| `Bridge.MissingPayloadAbandons` | src/bridge.cpp:762-927 | the platform, device-configuration and collection callbacks abandon the branch without a representation |
| `Bridge.GetNeedsNoPayload` | src/bridge.cpp:1093-1127 | GetCB goes on without a representation, and a type without a definition then gets one whose only property is "rt" |
| `Bridge.HasTranslatableType` | src/bridge.cpp:563-569 | the inner loop finds a type exactly when TranslateResourceType accepts one of the resource's types |
| `Bridge.Bridge.Manager` | src/bridge.cpp:136-146 | the manager starts with the protocols asked for, sender 0, CREATED, both ticks at 0 (so the first Process is due at once), and nothing discovered, queued or virtualised |
| `Bridge.Bridge.Plugin` | src/bridge.cpp:148-157 | a plugin starts with HAN-FUN only, its sender, CREATED, and nothing discovered, queued or virtualised |
| `Bridge.Bridge.SetSecureMode` | src/bridge.cpp:196-199 | the secure mode becomes the one given |
| `Bridge.Bridge.Continue` | src/bridge.cpp:617-629 | ContinueDiscovery on each fetch until one is accepted leaves the table Try describes, and only adds requests |
| `Bridge.Bridge.Finish` | src/bridge.cpp:776-784 | the end of a stage callback erases its handle and keeps the context in flight exactly when a next request was accepted; the table and the tasks stay sound |
| `Bridge.Bridge.UpdatePresenceStatus` | src/bridge.cpp:511-520 | every presence with the sighted id is seen now, and every other presence keeps its time |
| `Bridge.Bridge.HasSeenBefore` | src/bridge.cpp:527-537 | true exactly when some entry in flight is for the device |
| `Bridge.Bridge.IsSecure` | src/bridge.cpp:539-553 | true exactly when the resource is marked secure or has an endpoint with OC_SECURE |
| `Bridge.Bridge.HasTranslatableResource` | src/bridge.cpp:555-572 | true exactly when a resource passing the secure-mode test has a type TranslateResourceType accepts |
| `Bridge.Bridge.ParseIntrospectionPayload` | src/bridge.cpp:1187-1213 | on success one new OC presence is tracked for the device with the 5-second discovery period; on failure the presences are unchanged |
| `Bridge.Bridge.Sighting` | src/bridge.cpp:664-684 | an admitted sighting gets a new context and a GET of /oic/d with the next ident; any other changes nothing |
| `Bridge.Bridge.StartDiscovery` | src/bridge.cpp:671-681 | a new context is issued its GET of /oic/d, keyed only when accepted, and the ident is used up |
| `Bridge.Bridge.Admits` | src/bridge.cpp:666-667 | the sighting starts a discovery exactly when it is not the bridge itself, not seen before and offers a translatable resource |
| `Bridge.Bridge.DiscoverCB` | src/bridge.cpp:645-688 | every discovery payload of an OK response is one sighting in order, and every presence sighted is seen now; a missing response changes nothing |
| `Bridge.Bridge.See` | src/bridge.cpp:660-684 | one pass of DiscoverCB's loop: the presence is refreshed, then the sighting handled |
| `Bridge.Bridge.GetDeviceCB` | src/bridge.cpp:690-749 | an unseen virtual device is queued as a DiscoverTask ten seconds on; SEEN_NATIVE ends the branch; otherwise the GET of /oic/p follows, after kill_cb for a native device seen as virtual; an unknown handle changes nothing |
| `Bridge.Bridge.TakeDeviceStep` | src/bridge.cpp:708-748 | the decided step issues /oic/p, queues the DiscoverTask or stops, and calls kill_cb only on GoOn(true); the handle is erased |
| `Bridge.Bridge.Postpone` | src/bridge.cpp:715 | the DiscoverTask is appended to the queue, which stays sound |
| `Bridge.Bridge.GetPlatformCB` | src/bridge.cpp:751-785 | with a representation it goes on to the configuration stages; the handle is erased |
| `Bridge.Bridge.GetDeviceConfigurationCB` | src/bridge.cpp:787-812 | with a representation it goes on to platform configuration; the handle is erased |
| `Bridge.Bridge.GetPlatformConfigurationCB` | src/bridge.cpp:831-858 | it goes on to the collections whatever the response; the handle is erased |
| `Bridge.Bridge.GetCollectionCB` | src/bridge.cpp:886-927 | the links move under the collection, then the next collection or introspection follows; the handle is erased |
| `Bridge.Bridge.GetIntrospectionCB` | src/bridge.cpp:954-1037 | a GET of each coap or coaps url in turn, then the inference fallback; the handle is erased |
| `Bridge.Bridge.GetIntrospectionDataCB` | src/bridge.cpp:1039-1079 | a document that parses ends the walk and adds one presence for the device; anything else falls back to inference |
| `Bridge.Bridge.EndWalk` | src/bridge.cpp:1159-1176 | the built document is parsed, and exactly on success one presence is added for the device |
| `Bridge.Bridge.GetCB` | src/bridge.cpp:1081-1185 | the pair's definition and path are added, then the next pair is fetched; at End() the document is parsed and, on success, one presence is added |
| `Bridge.Bridge.DropDevice` | src/bridge.cpp:204-217 | every entry for the device is erased and the others stay |
| `Bridge.Bridge.DropPresence` | src/bridge.cpp:218-231 | every presence with the id is erased and the others stay, in order |
| `Bridge.Bridge.Destroy` | src/bridge.cpp:202-232 | the entries and the presences for the id go, the rest stay, and the bridge stays sound |
| `Bridge.Bridge.DestroyAddress` | src/bridge.cpp:235-265 | the virtual resources and virtual devices at the address go, the rest stay in order |
| `Bridge.Bridge.AbsentPresences` | src/bridge.cpp:444-451 | the ids of the presences not present now, in order |
| `Bridge.Bridge.DestroyAbsent` | src/bridge.cpp:452-456 | every absent id is destroyed, in the entries and the presences |
| `Bridge.Bridge.RDPublish` | src/bridge.cpp:1295-1309 | exactly one publication is pending, due a second from now |
| `Bridge.Bridge.RunRDPublishTask` | src/bridge.cpp:1359-1366 | the stored introspection data is published once and the pending pointer cleared |
| `Bridge.Bridge.LookupContext` | src/bridge.cpp:1244-1251 | true exactly when some entry in flight holds the context |
| `Bridge.Bridge.RunDiscoverTask` | src/bridge.cpp:1239-1284 | DiscoverTask::Run leaves the table and the calls of the as-written task |
| `Bridge.Bridge.RunTaskAt` | src/bridge.cpp:460-465 | a due task runs and is erased from the queue |
| `Bridge.Bridge.RunDueTasks` | src/bridge.cpp:457-470 | every task due now runs in list order and is erased; the rest stay queued |
| `Bridge.Bridge.ProcessHanFun` | src/bridge.cpp:388-418 | with HAN-FUN on, the HAN-FUN state, the device-table tick and the calls out step as HanFunStep says; otherwise nothing changes |
| `Bridge.Bridge.ProcessDiscovery` | src/bridge.cpp:419-443 | with OCF on and the tick due, the old discovery is cancelled, a new one issued to /oic/res, and the next tick set 5 seconds on; otherwise nothing changes |
| `Bridge.Bridge.Process` | src/bridge.cpp:385-472 | Process always returns true and keeps the table and tasks sound; the HAN-FUN state and device-table tick step as HanFunStep says when HAN-FUN is on; when OCF is on and its tick is due, the handle becomes the new discovery request and the tick moves 5 seconds on; the calls out are the device-table request, the cancel of the old discovery, then those of the due tasks, which run in order over the table with every absent device removed and the requests with the new discovery; the absent presences go, only the tasks not yet due stay, and the RD publication stays pending exactly when it was queued and not yet due |
| `Bridge.Bridge.Tick` | src/bridge.cpp:388-443 | with HAN-FUN on, the HAN-FUN state and device-table tick step as HanFunStep says, and otherwise stay; with OCF on and its tick due, a discovery of /oic/res is appended to the requests, its index becomes the handle and the tick moves 5 seconds on, and otherwise all three stay; the calls out are the HAN-FUN step's, then the cancel of the old handle when a new discovery is issued |
| `Bridge.Bridge.Sweep` | src/bridge.cpp:444-470 | the presences absent at `now` go and so do their devices' contexts; then the due tasks run in list order over that table, as Drain says, their calls out appended; only the tasks not yet due stay, and the RD publication stays pending exactly when it was queued and not yet due |
| `Bridge.TickCallsExact` | src/bridge.cpp:388-443 | before the Destroy loop Process asks for the device table exactly when HAN-FUN is on, STARTED and due, cancels exactly the previous handle when a new discovery is due, and calls out nothing else |
| `Bridge.PublicationLeftExact` | src/bridge.cpp:457-470 | with the tasks sound, the queue Process leaves holds an RDPublishTask exactly when the pending publication had a later tick |
| `Bridge.Bridge.StartRow` | src/bridge.cpp:1391-1418 | one row's calls: exec_cb for any piid not SEEN_NATIVE, after kill_cb when seen as virtual |
| `Bridge.Bridge.StartTableProcesses` | src/bridge.cpp:1379-1430 | the manager makes each row's calls, then asks for the next page when this one was full |
| `Bridge.Bridge.Virtualize` | src/bridge.cpp:1431-1449 | a plugin adds the virtual device, a HAN-FUN presence for the row's id and its virtual resource, whose creation always succeeds and calls RDPublish, so exactly one publication is pending, due a second from now; the bridge stays sound and becomes RUNNING |
| `Bridge.Bridge.AddVirtualDevice` | src/bridge.cpp:1431-1449 | apart from the create callback, a plugin's row adds exactly one virtual device, one fresh HAN-FUN presence for the row's id seen now and one virtual resource, and the HAN-FUN state becomes RUNNING |
| `Bridge.Bridge.GetDeviceTableCB` | src/bridge.cpp:1368-1450 | the manager makes the rows' calls and asks for the next page when full, changing nothing else; a plugin virtualises its one row, queuing or re-timing the publication through the resource's create callback, and makes no HAN-FUN or process calls |

## Left out

- Transport.Message.Unpack: checks that the whole frame lies inside the buffer and changes nothing when it does not. `Message::unpack` (src/transport.cpp:79-89) takes `data_size = size - 2` as a `uint16_t` and copies without a bound check, so a short or lying length reads past the chunk. The unchecked read is `Transport.UnpackAsWritten`; `Transport.UnpackOverReadsAsWritten` exhibits the over-read, and `Transport.DecodeAgreesAsWritten` proves the two agree whenever the read stays in bounds.
- Transport.Transport.OnRead: dispatches through the checked read of `Transport.Message.Unpack`, for the reason on the line above.
- Transport.Message.Pack: requires the frame to be shorter than 65536 bytes. The source stores the frame length in a `uint16_t` (src/transport.cpp:58), which wraps for longer data; the wrapped length is not modelled. The same bound is on `Transport.SendMessage`, `Transport.HelloMessage.Pack` and the `Transport.Transport` send methods.
- Resources.SetCollectionLinks: when the collection cannot be found again after the links are moved, it returns failure. src/resource.cpp:204 asserts there, and under NDEBUG would dereference `end()`. It also requires a collection that is present, as the assert at src/resource.cpp:162 demands, and a non-empty chain, which the caller in src/bridge.cpp always passes.
- Resources.SecureOrigin: the `TCP_ADAPTER` build branches (src/resource.cpp:42-47 and 571-575, src/bridge.cpp:987-989) are not modelled, so the TCP port of an endpoint is never used.
- Resources.ParsedEndpoints: the endpoint string parser `ParseEndpoint` (src/resource.cpp:453-506) is a parameter of the model.
- Bridge.InferenceStage: when no translatable (resource, introspection) pair remains, the source calls `it.GetUri()` on an `End()` iterator, which is undefined behaviour. The model ends that branch (`NoFetch`) instead.
- Bridge.InterfaceList: collects the interfaces in first-seen order. The source's `std::set` (src/bridge.cpp:1112-1120) keeps them sorted. `Introspection.DefinitionIgnoresInterfaces` shows that the order does not reach the stored definition.
- Bridge.Bridge.GetDeviceTableCB: requires at least one row in plugin mode (`sender != 0`), because src/bridge.cpp:1433 reads `dev_ids[0]` without a check; an empty table there is undefined behaviour. A device whose `SetProperties` fails is deleted by the source but its pointer stays in `virtual_ocf_devices_`; the model keeps it as a `VirtualDevice` with `live == false`.
- Bridge.Bridge.GetDeviceCB: for a virtual device without a "piid", the source builds the `DiscoverTask`'s `std::string piid` from a NULL `const char*` (src/bridge.cpp:715, inc/bridge.h:83), which is undefined behaviour. The model queues the task with the empty piid "" instead.
- Bridge.Bridge.TakeDeviceStep: the same case as the line above; the model's `piid.GetOr("")` stands for the NULL pointer.
- Introspection.ElementSchema: for an empty array of objects the source reads `objArray[0]` (src/introspection.cpp:316), which is undefined behaviour. The model gives such an array the empty object schema `{properties: {}, type: "object"}`, as if the element were a NULL object.
- Bridge.Bridge.DiscoverCB: a discovered resource without a URI makes `Resource::Resource` copy a NULL `resource->uri` into a `std::string` (src/resource.cpp:86), which is undefined behaviour. The model requires every discovered resource to have a URI (`Bridge.AllAddressable`, `Resources.AllHaveUri`); the same requirement is on `Bridge.Bridge.Sighting` and `Bridge.Bridge.See`.
- Launcher.DecodeSeenState: the word is read with `fscanf("%s")` into `char state_str[16]` (samples/hanfun_bridge.cpp:256-257), which overflows on a word of 16 characters or more. The model reads a word of any length.
- Launcher.ParseArguments: `long` is taken to be 64 bits wide, as on LP64 targets; `strtol`'s `endptr` and `errno` are not consulted by the source and are not modelled.
- Bridge.ResumeAsWritten: an iterator advanced past the end is modelled as the end.
- Bridge.Bridge.DestroyAddress: `Destroy(uint16_t)` has no caller, and `VirtualResource::address_` is never assigned (src/virtual_resource.cpp:17-22). The model compares against the row id the resource was created from.
- HanClient: the `strncpy` copies (src/han_client.cpp:236-240 and others) leave the destination without a NUL terminator when the source fills it; the model reads the copied characters only. Buffer capacities are modelled only where `HanClient.ParametersOverflowAsWritten` and `HanClient.DefaultSlotsOverflowAsWritten` state them.
- Hash: a failed SHA-1 computation leaves the digest uninitialised; SHA-1 itself (`sha1`) and the UUID string form (`uuidString`) are parameters.
- Introspection.SetIntrospectionData: the model computes the encoded data and its size; the write of the introspection file is not modelled. The CBOR encoder (`encode`) is a parameter.
- Allocation failures (`OICCalloc`, `OCRepPayloadCreate`, `new`) are not modelled, including the early exits at src/bridge.cpp:1011-1015 and 1064-1068.
- I/O and concurrency are not modelled: libuv sockets, files and persistent storage; spawning and killing processes and signals; the OCF and HAN-FUN threads, `mutex_`, `cond_` and `~Bridge`.
- `Bridge::Start`, `Bridge::Stop` and `Bridge::ResetSecurity` are sequences of library calls with no state of their own beyond what `Bridge.Bridge.Manager` and `Bridge.Bridge.Plugin` set up; they are not modelled. Neither is the launcher's `main` after the argument loop (reading and writing the seen-state file, starting the stack). `src/security.cpp`, `src/virtual_ocf_device.cpp`, `samples/plugin.cpp` and the logging code are not part of this model.

## Findings

The operations of the model follow each of these as written; the corrected member beside each carries the property the code evidently intends.

| source | as written | input that shows it | evidently intended | confidence | as-written member | corrected member |
|---|---|---|---|---|---|---|
| src/hash.cpp:85, 173 | the name-based UUID's version nibble 5 is written into `digest[7]` | any digest: byte 6 keeps its SHA-1 high nibble, so the identity is not a version-5 UUID | the version in the high nibble of octet 6, as section 4.1.3 of RFC 4122 places it | not executed | `Hash.StampAsWrittenBits`, `Hash.StampAsWrittenMissesVersion` | `Hash.StampBits` |
| src/han_client.cpp:239 | the EMC value is copied from `lines + 11`, one past the end of the `" DEV_EMC: "` prefix | the line `" DEV_EMC: 7"` reads no bytes; `" DEV_EMC: 7 34"` reads only `34` | the value starts at `lines + 10` | not executed | `HanClient.EmcFirstDigitDroppedAsWritten`, `HanClient.EmcShiftedAsWritten` | `HanClient.EmcReadsBack` |
| src/han_client.cpp:409-412 | the parameters buffer has `28 + strlen(index)` bytes, which leaves no room for the HOW_MANY digits | any start index and count: the formatted text with its NUL needs more bytes than that | a buffer sized for both numbers | not executed | `HanClient.ParametersOverflowAsWritten` | `HanClient.ParametersCapacityFits` |
| src/han_client.cpp:164-169 | the default `DeviceTableMessage` allocates one IPUI and one EMC slot, and the reader fills one slot per entry | a table of two entries writes a second slot that was never allocated | slots for the announced number of devices, as the sized constructor at src/han_client.cpp:171-177 does | not executed | `HanClient.DefaultSlotsOverflowAsWritten` | `HanClient.AnnouncedSlotsSuffice` |
| src/transport.cpp:79-89 | `unpack` trusts the frame's length field and copies that many bytes without a bound check | the chunk `[0x00, 0x10, 0x02, 0x01]` announces 16 bytes and reads 14 past its end | a frame that does not fit the chunk is rejected | not executed | `Transport.UnpackOverReadsAsWritten` | `Transport.DecodeEncoded`, `Transport.DecodeAgreesAsWritten` |
| src/introspection.cpp:470, 581 | `method` is still NULL when `OCRepPayloadSetPropObjectArray` stores the parameters in it | every call: the set fails, so `IntrospectPath` always returns NULL and no path reaches the introspection data | `method` created before it is filled, giving a path with its GET operation | not executed | `Introspection.IntrospectPathAsWrittenFails` | `Introspection.IntrospectPathOperations` |
| src/bridge.cpp:904 | after `SetCollectionLinks` has erased the linked resources from `resources_`, the walk continues with `++context->rit` on the old iterator | resources `/a`, `/c`, `/b`, where collection `/c` links `/a` and `/b` is a HAN-FUN object: `/b` is skipped; when `/c` is last, the walk steps past the end | the walk resumes at the collection's new position in the vector | not executed | `Bridge.StaleIteratorSkipsAsWritten`, `Bridge.StaleIteratorOverrunsAsWritten` | `Bridge.ResumeSkipsNothing` |
| src/bridge.cpp:1244-1255 | the deferred task looks its context up in `discovered_`, which the callback already left | every deferred discovery task: the lookup fails and the task is dropped, so the device is never introspected | the task finds its context and resumes it | not executed | `Bridge.DeferredDroppedAsWritten` | `Bridge.DeferredResumes` |
