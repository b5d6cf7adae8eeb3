# Minecraft server scanner: the status-ping client, modelled in Dafny

The repository scans a range of TCP ports on one host. For each port it
uses the Minecraft "Server List Ping" exchange to ask whether a Minecraft
server answers there, and if one does, which version it runs, its message
of the day, its player count and its mods. The same client code is copied
into three front ends:

- `app.py`, a Flask web service whose `/scan` route answers with a list of
  dictionaries;
- `v3.py`, a Tkinter desktop window whose `test_port` returns 5-tuples;
- `legacy/v2.py`, a command-line script whose `test_port` returns 4-tuples
  without mods.

This project models that client as pure functions over byte sequences and a
JSON datatype, and proves what each step computes:

- `Varint`: `read_varint`, the little-endian base-128 decoder. A stream that
  ends in the middle of a number gives 0. A stream that times out gives no
  value, because the probe's exception handler turns the timeout into `None`.
- `Packet`: the handshake and the status request, byte for byte. Both length
  prefixes are single bytes packed with `struct.pack("!B")`.
- `Response`: the reply parser. It reads and discards the outer length,
  requires packet id 0, then reads the payload length. It then collects the
  payload with a chunked `recv` loop (`Response.ReadPayload`, with a loop
  invariant) that stops early when the stream ends.
- `Probe`: `get_mc_status` as a whole. It covers the UTF-8 encoding of the
  host (`Utf8`), the bytes sent, the reply and the hand-off to `json.loads`.
- `StatusFields`: how `test_port` reads `description`, `version`, `players`
  and `modinfo`. Every lookup that would raise is modelled as `None`.
- `Scanner`: the range/collect logic shared by the three scans. The results
  arrive in thread-completion order, so that order is an input (`picks`).
  Every guarantee is stated so that it holds for any such order.
- `App`, `V3`, `LegacyV2`: each file's own `test_port` and scan entry point.
  `V3` parses the port entry fields and `LegacyV2` checks the arguments, both
  with Python's `int()` on text (`PyInt`).

`read_varint` and `get_mc_status` are the same code in all three files
(`app.py:8-54`, `v3.py:7-54`, `legacy/v2.py:9-64`), so they are modelled
once. The table cites every copy.

The model follows the code where the protocol says otherwise:

- an end of stream inside a varint decodes as 0, so a reply cut off after
  its outer length gets past the packet-id check and reaches the JSON
  decoder as an empty payload;
- the handshake's length prefixes are one byte, not varints, which agrees
  with the protocol's framing only for hosts of at most 121 bytes
  (`Packet.HandshakeFramingIsVarint`);
- a payload cut short by the end of the stream goes to the JSON decoder
  anyway, without being rejected.

The connection is modelled as `Peer`: either unreachable or a `Stream`. A
`Stream` is the reply's bytes plus a flag saying whether the server closes
the connection after them or stops sending, so that the next `recv` times
out. `json.loads` after UTF-8 decoding, and `str()` of a JSON list or
object, are parameters (`Json.Library`).

## Model

| member | source | states |
|---|---|---|
| Varint.ReadGroups | app.py:10-19 | The decoding loop fails (a timeout) exactly when the stream stays open and no byte in it ends the number. Otherwise it leaves a suffix of the stream, strictly shorter when the stream was not empty. |
| Varint.ReadVarint | app.py:8-19 | `read_varint` fails exactly when the stream stays open with no terminating byte. Otherwise it consumes a prefix of the stream and keeps the stream's end-of-stream behaviour. |
| Varint.ReadGroupsDecodes | v3.py:7-18 | From any accumulator and group index, the loop adds each group's low 7 bits shifted by 7 bits per group and consumes exactly the bytes up to the first byte with bit 7 clear. |
| Varint.ReadVarintDecodes | app.py:14-18 | When byte k is the first byte with bit 7 clear, `read_varint` returns the sum of `(b_i & 0x7F) * 2^(7i)` for i <= k and leaves exactly the bytes after k. |
| Varint.ReadGroupsAtEof | legacy/v2.py:55-58 | Once the stream ends before a terminating byte, the loop returns 0, throws away the partial value and leaves an empty, closed stream. |
| Varint.ReadVarintAtEof | app.py:11-13 | A closed stream with no terminating byte, the empty stream included, decodes as 0 and is used up. |
| Varint.ReadVarintSingle | app.py:14-19 | A byte with bit 7 clear is a whole varint by itself: its value is the byte, and exactly that byte is consumed. |
| Varint.EncodeVarint | legacy/v2.py:59-63 | The base-128 encoding of n ends at its only byte with bit 7 clear, and its groups sum back to n. |
| Varint.EncodeVarintLength | v3.py:14-17 | A value below 2^(7k) has an encoding of at most k bytes, one group per byte. |
| Varint.ReadVarintRoundTrip | app.py:8-19 | Decoding the encoding of any n, followed by any bytes, gives n and leaves exactly those bytes. |
| Utf8.EncodeChar | app.py:27 | One code point becomes 1, 2, 3 or 4 bytes as it lies below U+0080, U+0800, U+10000 or above. The lead byte's high bits give that width (`0xxxxxxx`, `110xxxxx`, `1110xxxx`, `11110xxx`), every later byte is a continuation byte `10xxxxxx`, and a single byte is the code point itself. |
| Utf8.Encode | v3.py:26 | A host of n code points encodes to between n and 4n bytes. |
| Utf8.DecodeChar | app.py:52 | A strict decoder of the first character of a byte string uses as many bytes as that character's UTF-8 width, never more than there are. |
| Utf8.DecodeCharEncode | app.py:27 | The strict decoder reads the encoding of any character back as that character and its width, whatever bytes follow. |
| Utf8.DecodeEncode | app.py:27 | Decoding the UTF-8 bytes of any host gives the host back. |
| Utf8.EncodeConcat | v3.py:26 | The encoding of a concatenation is the concatenation of the encodings. |
| Utf8.EncodeLength | app.py:27-30 | The host's byte length, which the one-byte length prefix limits, is its character count plus one for each character at or above U+0080, U+0800 and U+10000. |
| Utf8.EncodeAscii | legacy/v2.py:16 | An ASCII host encodes to its own code points, one byte each. |
| Packet.Handshake | app.py:28-34 | The handshake is built exactly when the host has at most 249 bytes and the port lies in 0..65535. It is 7 + \|host\| bytes: the length of the rest, 0, 0, the host length, the host, the port big-endian, then 1. |
| Packet.HandshakeLayout | app.py:27-34 | For a valid host and port the handshake is exactly `[6+\|h\|, 0, 0, \|h\|] ++ h ++ [port >> 8, port & 0xFF, 1]`. |
| Packet.HandshakeRoundTrip | v3.py:27-34 | A byte string is the handshake of a host and a port exactly when reading its fields back gives that host and that port. |
| Packet.ParseHandshake | legacy/v2.py:17-24 | Reading a handshake back succeeds only on 7 + \|host\| bytes with a port in 0..65535. |
| Packet.HandshakeFramingIsVarint | legacy/v2.py:20-24 | A varint reader sees the single-byte packet length as the body's length exactly when the host has at most 121 bytes. |
| Response.Payload | app.py:43-49 | The payload fails exactly when `response_length` exceeds the largest `Py_ssize_t` (the first `recv` raises `OverflowError`), or fewer bytes arrive and the stream stays open (a timeout). Otherwise it is the first `min(response_length, available)` bytes of the stream. |
| Response.Granted | legacy/v2.py:40 | One `recv(want)` hands over between 1 and `want` bytes, and no more than are waiting. |
| Response.ReadPayload | v3.py:44-49 | The chunked `recv` loop returns the same payload as `Response.Payload`, whatever the chunk sizes: a prefix of the stream, of length `min(response_length, available)`, or a failure exactly when a `recv` overflows or the data runs short on an open stream. |
| Response.ParseResponse | app.py:38-49 | The parsed payload is always shorter than the reply, or empty. |
| Response.ParseWellFormed | v3.py:38-49 | A reply framed as outer length, id 0, payload length and payload yields exactly that payload, whatever the outer length says and whatever follows. |
| Response.NonzeroIdRejected | app.py:39-41 | A packet id other than 0 gives no payload. |
| Response.EofAfterOuterLength | legacy/v2.py:31-37 | A reply that ends right after its outer length reads id 0 and length 0, so it yields an empty payload rather than failing. |
| Response.TruncatedPayload | legacy/v2.py:38-43 | A payload shorter than a length `recv` can be asked for is accepted as it is when the stream ends, and times out when it stays open. |
| Response.ParseFramed | app.py:38-49 | With id 0 and a response length framed as varints, the parser returns what the payload loop collects from the bytes that follow. |
| Response.OverlongLengthRaises | app.py:44-46 | A response length above the largest `Py_ssize_t` makes the first `recv` raise, so the reply yields no payload even when it is complete. |
| Probe.Outbound | app.py:27-36 | The bytes sent are built exactly when the UTF-8 host has at most 249 bytes and the port is in range. They are the handshake followed by `01 00`. |
| Probe.GetStatus | app.py:21-54 | The probe gives a value exactly when the packets can be built, the peer accepts, the reply parses and `json.loads` accepts the payload, and then it is that decoded value. An unreachable peer, a bad port or an over-long host gives `None`. |
| Probe.Exchange | v3.py:20-54 | Running the exchange step by step, with an arbitrary chunking of the reply, gives the status `Probe.GetStatus` specifies. Nothing is sent exactly when the peer is unreachable or the packets cannot be built, and otherwise the handshake and the request are sent. |
| Probe.WellFormedReply | legacy/v2.py:9-49 | For a well-framed reply the probe's result is `json.loads` of exactly the payload. |
| Probe.EofAfterOuterLengthReachesDecoder | app.py:38-52 | A reply that ends after its outer length makes the probe hand an empty payload to `json.loads`. |
| Probe.TruncatedPayloadReachesDecoder | v3.py:43-52 | A payload cut short by the end of the stream, under a length `recv` can be asked for, is handed to `json.loads` as it is. |
| Probe.OverlongLengthGivesNone | app.py:44-54 | A response length of 2^63 or more makes `get_mc_status` return `None`, whatever payload follows. |
| Json.Str | app.py:61 | Formatting a string field gives the string itself, and formatting an integer field gives text that `int()` reads back as that integer. |
| PyInt.Digits | v3.py:62 | The decimal digits of a natural number are at least one digit, with no leading zero. |
| PyInt.Decimal | app.py:61 | The decimal text of an integer ends in a digit and starts with `-` exactly for a negative number. |
| PyInt.TrimStart | v3.py:73-74 | Removing leading white space drops only white space and leaves a suffix that does not start with it. |
| PyInt.TrimEnd | v3.py:73-74 | Removing trailing white space drops only white space and leaves a prefix that does not end with it. |
| PyInt.ParseInt | v3.py:72-77 | `int()` of text accepts only text that holds a digit. |
| PyInt.ParseIntRejectsSeparator | v3.py:72-77 | Port text that starts with one of the separators U+001C to U+001F is not an integer, so the scan shows the error instead of probing. |
| PyInt.ParseIntRejectsFileSeparator | legacy/v2.py:83 | `int()` of U+001C followed by `80` raises. |
| PyInt.DigitsValueOfDigits | legacy/v2.py:83-84 | Reading the decimal digits of n back gives n. |
| PyInt.ParseIntDecimal | v3.py:73-74 | `int()` of the decimal text of any integer gives that integer back. |
| PyInt.DecimalUntrimmed | v3.py:73 | `str(n)` has no white space for `int()` to skip. |
| PyInt.DecimalBody | legacy/v2.py:83 | Without its sign, `str(n)` is the digits of the absolute value of n. |
| StatusFields.Motd | app.py:59 | The motd exists exactly when the status is an object with a description that, when it is an object itself, holds `text`. It is that `text` for an object description and the description itself otherwise. |
| StatusFields.VersionName | v3.py:61 | The version exists exactly when `status["version"]["name"]` exists, and it is that value. |
| StatusFields.PlayerCount | legacy/v2.py:72 | The player count exists exactly when `players` is an object holding `online` and `max`, and it is their text joined by `/`. |
| StatusFields.ModTag | app.py:64 | An entry gives a tag exactly when its `modid` and `version` are strings, and the tag is `modid@version`. |
| StatusFields.TagAll | v3.py:65 | The mod tags exist exactly when every entry has one. Then they are one tag per entry, in the order of the list. |
| StatusFields.ModListTags | app.py:64 | A `modList` array gives its entries' tags. Iterating anything else gets through exactly when it is an empty object or an empty string, and then gives no tags. |
| StatusFields.Mods | app.py:62-64 | There are no mods without `modinfo`. A `modinfo` that is not an object raises, an object without `modList` gives no mods, and an object holding `modList` gives that list's tags, whatever other keys it holds. |
| StatusFields.TagList | v3.py:65 | The tags listed for declared mods are one `modid@version` per mod, in order. |
| StatusFields.StatusObject | app.py:59-64 | A status object as a server sends it, including keys the client does not read (`favicon`, `version.protocol`, `players.sample`, a Forge `modinfo.type`), is a JSON object holding `version`, `description` and `players`, and holds `modinfo` exactly when the server declares mods. |
| StatusFields.ReadsStatusObject | app.py:59-65 | On a server's status object, whatever other keys it carries, the motd is the flat description text whichever form it takes, the version is its name, the players are `online/max` in decimal, and the mods are one tag per declared mod, or none without `modinfo`. |
| StatusFields.ReadsMotd | app.py:59 | The motd of a server's status object is the flat description text, whether the description is plain text or an object with other keys beside `text`. |
| StatusFields.ReadsVersion | app.py:60 | The version of a server's status object is its name, whatever else `version` holds. |
| StatusFields.ReadsPlayers | app.py:61 | The players of a server's status object are `online/max` in decimal, whatever else `players` holds. |
| StatusFields.ReadsMods | app.py:62-64 | The mods of a server's status object are one tag per declared mod in order, whatever else `modinfo` holds, and none when the server sends no `modinfo`. |
| StatusFields.ReadsModList | app.py:64 | The `modList` a server sends for its mods reads back as one `modid@version` tag per mod, in order. |
| Scanner.Range | app.py:82 | `range(start, end + 1)` lists start, start+1, ..., end, and nothing when start > end. |
| Scanner.Schedule | v3.py:84-85 | The completion order is a permutation of the submitted ports. |
| Scanner.ScheduleReaches | v3.py:84-85 | Every rearrangement of the submitted ports is an order `as_completed` can produce: some choice of `picks` gives exactly it. |
| Scanner.ScheduleStep | v3.py:85 | The future that completes first comes first, and the rest complete in an order of the remaining ones. |
| Scanner.OthersPermute | v3.py:85 | Taking the first completed port out of both the submitted ports and a rearrangement of them leaves a rearrangement. |
| Scanner.Probes | legacy/v2.py:91-93 | Every port of [start, end] is probed exactly once, no other port is probed, and nothing is probed when start > end. |
| Scanner.RangeCount | app.py:82 | The range holds each port of [start, end] once and no other port. |
| Scanner.Collect | app.py:83-86 | Collecting raises exactly when some probe raised. Otherwise every kept result is the non-`None` result of a probed port, and every such result is kept. |
| Scanner.CollectConcat | v3.py:85-88 | Collecting two runs of ports one after the other gives the results of each, joined. |
| Scanner.CollectSchedule | app.py:83-86 | Collecting in any completion order fails exactly when collecting in port order does, and otherwise keeps the same multiset of results. |
| Scanner.CollectScheduledStep | v3.py:85-88 | Taking the next completed future first and then the rest matches collecting in port order, up to permutation. |
| Scanner.CollectSplit | legacy/v2.py:93-96 | Collecting a list splits around any position into the part before, that port, and the part after. |
| Scanner.JoinPermutes | app.py:83-86 | Moving one port's result between the parts before and after it changes neither the failure nor the multiset of results. |
| Scanner.CollectDistinctPorts | v3.py:85-88 | When no port is probed twice, no two kept results carry the same port. |
| Scanner.ProbesDistinct | legacy/v2.py:91 | No port is submitted twice. |
| Scanner.ProbesMembers | app.py:82 | A port is probed exactly when it lies in [start, end]. |
| Scanner.ScanRaises | v3.py:84-86 | A scan raises exactly when the probe of some port in [start, end] raised. |
| Scanner.ScanResults | legacy/v2.py:91-96 | Every kept result belongs to its own port inside [start, end], every port's non-`None` result is kept, and nothing is kept exactly when no port found a server. |
| Scanner.ScanFacts | app.py:80-87 | For any completion order, a scan of [start, end] raises exactly when some port's probe raised. Otherwise its results are exactly the non-`None` results of the ports in range, each port at most once, empty exactly when no port found a server. They fail together with, and otherwise equal up to order, a scan in port order. |
| App.Report | app.py:58-66 | Given the value `get_mc_status` returned, `test_port` gives `None` exactly when it is `None` or falsy. It raises exactly when the value is truthy and the motd, the version, the players or the mods cannot be read. Otherwise it gives the dictionary of the port and those four fields. |
| App.TestPort | app.py:56-66 | `test_port` finds no server on a port that does not answer or lies outside 0..65535, and exactly when `get_mc_status` gives `None` or a falsy value. It returns a result or raises only for a port whose reply parsed, and a result carries its port. |
| App.ProberCarriesPort | app.py:65 | Every dictionary `test_port` returns carries the port it probed. |
| App.Scan | app.py:80-87 | `/scan` fails exactly when some `test_port` in [start, end] raises. Otherwise its list holds, once per port, the dictionary of every port in the range that found a server, and nothing else; it is empty exactly when no port found one. For every completion order it fails together with the port-order scan and otherwise holds the same dictionaries. |
| App.ReportsWellFormedServer | app.py:21-66 | A server that frames its reply correctly and sends a status object without mods, whatever other keys it carries, is reported with its version name, flat description text, `online/max` and no mods. |
| App.ReportsStatusObject | app.py:59-65 | The dictionary for a server's status object, whatever other keys it carries, holds its version name, the flat description text, `online/max` in decimal, and one `modid@version` per declared mod, or none without `modinfo`. |
| App.ReportOfFields | app.py:58-65 | A truthy status whose motd, version, players and mods all read is reported as the dictionary of exactly those values. |
| App.MissingVersionRaises | app.py:60 | A truthy status object without `version` makes `test_port` raise instead of returning `None`. |
| V3.Report | v3.py:59-67 | Given the value `get_mc_status` returned, `test_port` gives `None` exactly when it is `None` or falsy. It raises exactly when a truthy status lacks a readable motd, version, players or mods. Otherwise it gives the tuple (port, version, motd, players, mods) of those fields. |
| V3.TestPort | v3.py:57-67 | `test_port` finds no server on a port that does not answer or lies outside 0..65535, and exactly when `get_mc_status` gives `None` or a falsy value. It returns a tuple or raises only for a port whose reply parsed, and the tuple starts with its port. |
| V3.ProberCarriesPort | v3.py:66 | Every tuple `test_port` returns carries the port it probed first. |
| V3.Scan | v3.py:70-95 | Invalid port text ends the scan before any probe, exactly when either field is not an integer. Otherwise the scan raises exactly when some `test_port` in the range raises. If none raises, it lists, once per port, every port that found a server and nothing else, and the "no server found" line appears exactly when no port gave a result. |
| V3.ScanPorts | v3.py:82-95 | Once the ports parsed, the scan raises exactly when some `test_port` in the range raises. Otherwise it lists every found server once and only found servers, and reports "no server found" exactly when no port gave a result. |
| V3.ListsModdedServer | v3.py:57-67 | A server that frames its reply correctly and declares mods, whatever other keys its status carries, is listed with its version name, flat description, `online/max` and one `modid@version` per mod, in order. |
| V3.ListsStatusObject | v3.py:59-66 | The tuple for a server's status object, whatever other keys it carries, holds its version name, the flat description text, `online/max` in decimal, and one tag per declared mod, or none without `modinfo`. |
| V3.ReportOfFields | v3.py:59-66 | A truthy status whose motd, version, players and mods all read is listed as the tuple of exactly those values. |
| LegacyV2.Report | legacy/v2.py:69-74 | Given the value `get_mc_status` returned, `test_port` gives `None` exactly when it is `None` or falsy, and raises exactly when a truthy status lacks the motd, the version or the players. Otherwise it gives the tuple (port, version, motd, players). `modinfo` is never read. |
| LegacyV2.TestPort | legacy/v2.py:67-74 | `test_port` finds no server on a port that does not answer or lies outside 0..65535, and exactly when `get_mc_status` gives `None` or a falsy value. It returns a tuple or raises only for a port whose reply parsed, and the tuple starts with its port. |
| LegacyV2.ProberCarriesPort | legacy/v2.py:73 | Every tuple `test_port` returns carries the port it probed first. |
| LegacyV2.Run | legacy/v2.py:77-96 | With fewer than three arguments the script stops with the usage line. A port argument that is not an integer stops it before any probe. Otherwise it crashes exactly when some `test_port` in the range raises, and otherwise it lists, once per port, every port that found a server and nothing else. |
| LegacyV2.ScanPorts | legacy/v2.py:90-96 | Once the arguments parsed, the scan crashes exactly when some `test_port` in the range raises. Otherwise it keeps every found server once and only found servers in range. |
| LegacyV2.AgreesWithApp | legacy/v2.py:67-74 | On any value from `get_mc_status`, wherever the web version's `test_port` finds a server this one reports the same port, version, motd and players. The two find no server on the same values, and this one raises only where the web version raises. |
| LegacyV2.IgnoresModInfo | legacy/v2.py:67-74 | A status whose `modinfo` is not an object, but whose other fields are readable, makes the web version raise while this one lists the server. |

## Left out

- Sockets, `connect` and timeouts: the peer is an input (`Peer`, `Stream`), and a timeout or a refused connection becomes the `None` that the probe's exception handler returns.
- Threads: `ThreadPoolExecutor` and `as_completed` are modelled as a sequential fold over the completion order `picks`, which is an input. No guarantee depends on that order except the order of the results.
- `json.loads`, the UTF-8 decoding before it, and `str()` of a JSON list or object are the parameters `Json.Library.loads` and `Json.Library.repr`. JSON floats are not in the `Value` datatype.
- Utf8.Encode: lone surrogates, which make `str.encode` raise, are not modelled. Dafny strings here hold code points.
- Response.Payload: a response length that fits a `Py_ssize_t` but is too large to allocate makes `recv` raise `MemoryError`, which turns into `None`; where that happens depends on the machine's memory, so the model lets such a length read whatever the peer sends. Only the `OverflowError` above 2^63 - 1 is modelled.
- The conversion of the JSON request fields in `/scan` (`int(data.get(...))` in app.py:76-78): `App.Scan` takes the host and both ports as already converted. A request whose fields cannot be converted fails before any probe.
- PyInt.ParseInt: its own contract says only that accepted text holds a digit. The value `int()` gives is stated through `PyInt.ParseIntDecimal`, for the decimal text of every integer, rather than for every accepted spelling (signs, underscores, surrounding white space).
- PyInt.ParseInt: Unicode digits other than ASCII, and Python's limit on the number of digits in a decimal string, are not modelled.
- Output and user interface: Flask routing, templates and `jsonify`; the Tkinter window and its text area, including results shown before a later `test_port` raises; `print` and the `tqdm` progress bar in legacy/v2.py.
- `legacy/v1.py` (a plain connect loop with no protocol logic), `static/main.js` (page rendering), favicons and the `/scan_realtime` route are not part of this model.
