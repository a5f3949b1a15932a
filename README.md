# sharptrader WebSocket stack and exchange clients in Dafny

This project models the hand-written WebSocket client of sharptrader and the
small protocol layers built on it:

- the frame codec, handshake, send paths and receive loop of `WebSocket`,
  using the framing of section 5.2 of RFC 6455;
- the socket.io v0.9 adapter `SocketIO`;
- the Pusher adapter `Pusher`;
- the numeric parsers and argument guards of `Helper`;
- the ICBIT client's order/balance/instrument cache and command strings (`Icbit`);
- the pure helpers of `IcbitTypes`;
- the timestamps, typed payload slot and texts of the MtGox records (`MtgoxTypes`).

Each source file is one module. Code that computes a value becomes datatypes,
functions and lemmas. Code that changes state in place becomes a `class` whose
methods carry `modifies` clauses:

- `WebSocketNet.WebSocket`;
- `SocketIO.SocketIO`;
- `Pusher.Pusher`;
- `Icbit.Icbit`;
- `MtgoxTypes.Packet`.

Their loops stay loops with invariants: `maskFrame`, the `recv` frame loop,
`Int64FromString`, `DecimalFromString` and `initDecimalFracs`.

Every state-changing method is proved against a specification function on a
value snapshot of the object. For example, the ensures of
`WebSocketNet.WebSocket.SendData` is
`Step(Snapshot(), o) == WebSocketSpec.SendData(env, old(Snapshot()), opcode, data)`.
The lemmas of `WebSocketLaws` and of each module then state what the source
promises about those functions.

The modules are:

| module | contents |
|---|---|
| `Common` | bytes, `Option`/`Result`, the exceptions as an `Error` datatype, 32/64-bit wrap-around, the .NET string operations used |
| `Frame` | header building, masking, header parsing and close codes |
| `HttpResponse` | `readHttpResponse` and the checks `WebHeaderCollection.Set` makes on each header it stores |
| `WebSocketSpec` | the connection as a value (`Conn`) and every transition |
| `WebSocketNet` | the class |
| `WebSocketLaws` | the properties |

A connection's input and output are abstract:

- Writes are appended to an output sequence of `Write(stream, bytes)` records.
- Reads arrive as chunks appended to the receive buffer.
- Handler callbacks are appended to an event sequence.

Host byte order is an explicit parameter (`Env.le`). The mask-key generator,
the SHA-1/base64 accept-key computation and the handshake request bytes are
functions in `Env`.

The classes model the code as written, including the defects listed under
"## Findings". Beside each defect stands a corrected definition with the
intended property proved about it. Four more behaviours of the source are
stated as they are, as lemmas:

- `WebSocketLaws.CallbacksGetWholeBuffer`: the binary, pong and shutdown
  callbacks receive the whole 65K receive buffer, not the payload.
- `WebSocketLaws.PingWithPayloadThrows`: as a consequence, a received Ping with
  a payload makes the Pong reply fail the length guard. That ends the receive
  loop.
- `WebSocketLaws.TextWhileShut`: text sends skip the shut check that binary and
  control sends make.
- `Helper.ParseInt64Fails`: after a leading '-', a digit run reaching the end of
  the string makes `Int64FromString` read one past the end.

## Model

| member | source | states |
|---|---|---|
| Frame.LengthBytesByHost | WebSockets/Net/WebSocket.cs:434-436 | the two extended-length bytes taken from HostToNetworkOrder of a 32-bit int are 0,0 on a little-endian host, and the length low byte first on a big-endian host |
| Frame.LengthBytes | WebSockets/Net/WebSocket.cs:566 | the network-order 16-bit length that the receiver reads: two bytes whose big-endian value is the length |
| Frame.MaskKeyFirstByte | WebSockets/Net/WebSocket.cs:443-452 | on a little-endian host the first key byte written is the top byte of the mask, which is never zero |
| Frame.Header | WebSockets/Net/WebSocket.cs:421-453 | header layout: byte 0 is FIN plus opcode; byte 1 is the mask bit plus the length or 126; bytes 2-3 hold the extended length when len >= 126; the 4 key bytes end the header when masking; its size is the header length |
| Frame.PrepareFrame | WebSockets/Net/WebSocket.cs:415-456 | succeeds exactly when len < 65536 and 0 <= opcode < 16; the length error is raised first, then the opcode error; on success the offset returned is the header length |
| Frame.PrepareFrameFixed | WebSockets/Net/WebSocket.cs:415-456 | the same success condition, with the extended length written in network order |
| Frame.MaskInPlace | WebSockets/Net/WebSocket.cs:458-466 | bytes outside [ofs, ofs+len) are unchanged; byte i inside is XORed with key byte (i-ofs) mod 4, read at ofs-4 |
| Frame.Masked | WebSockets/Net/WebSocket.cs:458-466 | masking as section 5.3 of RFC 6455 defines it: payload byte i XOR key byte i mod 4 |
| Frame.MaskedTwice | WebSockets/Net/WebSocket.cs:458-466 | masking twice with the same key restores the payload |
| Frame.UnmaskedPayloadMisread | WebSockets/Net/WebSocket.cs:463 | a receiver that unmasks a non-empty payload left unmasked under a key written by a little-endian host does not get the payload back |
| Frame.MaskedFrame | WebSockets/Net/WebSocket.cs:458-466 | a masked frame is the header followed by the payload XORed with the 4 key bytes that end the header |
| Frame.ParseHeader | WebSockets/Net/WebSocket.cs:538-571 | a frame is complete only when FIN is set, the opcode fits and the header plus payload fit in the bytes held; the short form has a 2-byte header and length < 126, the 126 form a 4-byte header; a first byte of 0 selects legacy framing and nothing else does |
| Frame.ParseHeaderRoundTrip | WebSockets/Net/WebSocket.cs:553-571 | a frame built with the length in network order parses back to its opcode, header length and payload, whatever follows it |
| Frame.ParseHeaderAsWritten | WebSockets/Net/WebSocket.cs:434-436 | on a little-endian host a frame of 126..65535 bytes built as written parses as a 4-byte header with an empty payload |
| Frame.CloseCode | WebSockets/Net/WebSocket.cs:601-603 | the close code read from two payload bytes is a 16-bit signed value |
| Frame.CloseCodeRoundTrip | WebSockets/Net/WebSocket.cs:190 | the code Shutdown writes big-endian reads back as the same code |
| Frame.CodeValueInjective | WebSockets/Net/WebSocket.cs:24-35 | the ShutdownCode values are distinct |
| WebSocketSpec.MaskAt | WebSockets/Net/WebSocket.cs:443 | every mask drawn is a nonzero 32-bit value |
| WebSocketSpec.Notify | WebSockets/Net/WebSocket.cs:646-694 | a callback is recorded exactly when a handler is set, and nothing else changes |
| WebSocketSpec.Emit | WebSockets/Net/WebSocket.cs:389-409 | bytes are written only while a stream is held, to that stream, and nothing else changes |
| WebSocketSpec.VersionCheckRejectsVersions | WebSockets/Net/WebSocket.cs:86-94 | as written, the Version setter rejects every non-empty value and accepts only null or "" |
| WebSocketSpec.VersionCheckFixed | WebSockets/Net/WebSocket.cs:86-94 | the intended setter accepts exactly the non-empty values |
| WebSocketSpec.IndexOfByte | WebSockets/Net/WebSocket.cs:544 | Array.IndexOf: -1 when the byte is absent from the range, else the first position holding it |
| WebSocketSpec.ShiftDown | WebSockets/Net/WebSocket.cs:624 | Array.Copy to the front: the first count bytes become the bytes at from, the rest is unchanged |
| WebSocketSpec.LegacyIteration | WebSockets/Net/WebSocket.cs:540-549 | the legacy branch either stops or continues with fewer bytes held |
| WebSocketSpec.Iteration | WebSockets/Net/WebSocket.cs:538-625 | one pass of the receive loop either stops or continues with strictly fewer bytes held, keeping the connection invariant |
| WebSocketSpec.RecvLoop | WebSockets/Net/WebSocket.cs:538-626 | the receive loop never grows the bytes held |
| WebSocketSpec.Filled | WebSockets/Net/WebSocket.cs:527 | a chunk read is placed at the offset where the previous pass stopped |
| WebSocketNet.WebSocket.constructor | WebSockets/Net/WebSocket.cs:70-80 | a new socket holds no stream, counts as shut until a handshake passes, uses protocol version 13 and has fresh buffers |
| WebSocketNet.WebSocket.SetVersion | WebSockets/Net/WebSocket.cs:86-94 | the Version setter's check and assignment, with nothing else changed |
| WebSocketNet.WebSocket.SetHandler | WebSockets/Net/WebSocket.cs:111-115 | only the handler changes |
| WebSocketNet.WebSocket.SetMasking | WebSockets/Net/WebSocket.cs:120-128 | the IsMasking setter as the transition SetMasking |
| WebSocketNet.WebSocket.PrepareFrame | WebSockets/Net/WebSocket.cs:415-456 | writes exactly the header Frame.PrepareFrame gives into the send buffer, or returns its error |
| WebSocketNet.WebSocket.WriteHeader | WebSockets/Net/WebSocket.cs:421-453 | the send buffer starts with Frame.Header and the offset is the header length |
| WebSocketNet.WebSocket.MaskFrame | WebSockets/Net/WebSocket.cs:458-466 | the receive buffer becomes MaskInPlace of its old contents when masking, and is unchanged otherwise |
| WebSocketNet.WebSocket.CopyToSend | WebSockets/Net/WebSocket.cs:380 | the payload is copied after the header |
| WebSocketNet.WebSocket.WriteOut | WebSockets/Net/WebSocket.cs:389-409 | the frame is written to the held stream as Emit says |
| WebSocketNet.WebSocket.SendData | WebSockets/Net/WebSocket.cs:369-387 | the binary/control send as the transition SendData |
| WebSocketNet.WebSocket.SendText | WebSockets/Net/WebSocket.cs:357-367 | the text send as the transition SendText |
| WebSocketNet.WebSocket.SendFrame | WebSockets/Net/WebSocket.cs:377-384 | masking, copying and writing one frame, and marking the socket shut after a Close frame |
| WebSocketNet.WebSocket.SendAscii | WebSockets/Net/WebSocket.cs:205-208 | a text send in ASCII |
| WebSocketNet.WebSocket.Send | WebSockets/Net/WebSocket.cs:210-214 | a text send in the socket's encoding |
| WebSocketNet.WebSocket.SendBinary | WebSockets/Net/WebSocket.cs:216-220 | a binary send |
| WebSocketNet.WebSocket.Ping | WebSockets/Net/WebSocket.cs:176-180 | the transition Ping |
| WebSocketNet.WebSocket.Shutdown | WebSockets/Net/WebSocket.cs:183-202 | the transition Shutdown |
| WebSocketNet.WebSocket.Close | WebSockets/Net/WebSocket.cs:168-174 | the transition Close |
| WebSocketNet.WebSocket.Detach | WebSockets/Net/WebSocket.cs:162-166 | returns the held stream and forgets it |
| WebSocketNet.WebSocket.ReadHttpResponse | WebSockets/Net/WebSocket.cs:305-337 | the byte-by-byte loop computes HttpResponse.ReadResponse on the buffer and headers, including the exception of a line the collection refuses |
| WebSocketNet.WebSocket.Open | WebSockets/Net/WebSocket.cs:147-160 | closes, writes the request into the receive buffer and to the new stream, reads the response into the same buffer and checks it, as the transition Open |
| WebSocketNet.WebSocket.SendRequest | WebSockets/Net/WebSocket.cs:264-266 | the request bytes overwrite the front of the buffer, the rest of it is kept, and one write of them goes to the new stream |
| WebSocketNet.WebSocket.Restart | WebSockets/Net/WebSocket.cs:149 | Open first closes the socket, then starts a new stream |
| WebSocketNet.WebSocket.Accept | WebSockets/Net/WebSocket.cs:269-292 | the handshake checks as the transition Handshake |
| WebSocketNet.WebSocket.Notify | WebSockets/Net/WebSocket.cs:646-694 | a callback as the transition Notify |
| WebSocketNet.WebSocket.ShiftDown | WebSockets/Net/WebSocket.cs:624 | the receive buffer becomes WebSocketSpec.ShiftDown of its old contents |
| WebSocketNet.WebSocket.CloseFrame | WebSockets/Net/WebSocket.cs:596-616 | handling a received Close frame as the transition CloseFrame |
| WebSocketNet.WebSocket.Dispatch | WebSockets/Net/WebSocket.cs:573-622 | dispatching one complete frame by opcode as the transition Dispatch |
| WebSocketNet.WebSocket.LegacyIteration | WebSockets/Net/WebSocket.cs:540-549 | the legacy-framing branch as the function LegacyIteration |
| WebSocketNet.WebSocket.LegacyFound | WebSockets/Net/WebSocket.cs:545-549 | the legacy-framing branch after the terminator is found |
| WebSocketNet.WebSocket.ReadHeader | WebSockets/Net/WebSocket.cs:553-571 | reads the header bytes exactly as Frame.ParseHeader parses them |
| WebSocketNet.WebSocket.Iteration | WebSockets/Net/WebSocket.cs:538-625 | one pass of the recv loop as the function Iteration |
| WebSocketNet.WebSocket.FrameIteration | WebSockets/Net/WebSocket.cs:569-624 | a complete frame is dispatched, then exactly its bytes are removed from the front |
| WebSocketNet.WebSocket.RecvLoop | WebSockets/Net/WebSocket.cs:538-626 | the while loop computes the function RecvLoop |
| WebSocketNet.WebSocket.Receive | WebSockets/Net/WebSocket.cs:522-641 | one completed read as the transition Receive |
| WebSocketNet.WebSocket.Resume | WebSockets/Net/WebSocket.cs:628-640 | after the loop, the next read is started or the error is reported, as Resume says |
| WebSocketNet.WebSocket.Fill | WebSockets/Net/WebSocket.cs:527 | the chunk read lands at the pending offset |
| WebSocketNet.WebSocket.ReadFailed | WebSockets/Net/WebSocket.cs:631-635 | a failed read as the transition ReadFailed |
| WebSocketLaws.SendWhileShut | WebSockets/Net/WebSocket.cs:371 | once shut, binary and control sends and short pings fail with InvalidOperationException and change nothing |
| WebSocketLaws.TextWhileShut | WebSockets/Net/WebSocket.cs:357-367 | a text send still succeeds and writes one frame when the socket is shut |
| WebSocketLaws.ShutdownWritesCode | WebSockets/Net/WebSocket.cs:183-201 | Shutdown with a code writes one Close frame whose body is the code, big-endian, followed by the data, and marks the socket shut |
| WebSocketLaws.ShutdownThenRefused | WebSockets/Net/WebSocket.cs:383 | after a successful Shutdown, binary sends and pings fail |
| WebSocketLaws.ShutdownArguments | WebSockets/Net/WebSocket.cs:176-186 | shutdown data of 124 bytes or more, a missing code, and ping data of 126 bytes or more are rejected with ArgumentException and change nothing |
| WebSocketLaws.CloseSilences | WebSockets/Net/WebSocket.cs:168-174 | Close marks the socket shut, drops the stream and headers, and nothing is written after it |
| WebSocketLaws.MaskingOnlyWhileDisconnected | WebSockets/Net/WebSocket.cs:120-128 | IsMasking can be set exactly when no stream is held; a refused set changes nothing |
| WebSocketLaws.SentPayloadUnmasked | WebSockets/Net/WebSocket.cs:458-466 | with masking on, the frame sent carries the mask bit and key but the plain payload, so the receiver's unmasking does not give it back |
| WebSocketLaws.OpenOutcome | WebSockets/Net/WebSocket.cs:228-292 | a request longer than the buffer fails before anything is written; otherwise the request is written once to the new stream, the response is read over the request bytes in the buffer, and the handshake passes exactly when that read succeeds, its upgrade headers are right and its accept key is the one computed from the key; then the new stream is held and the socket is not shut; otherwise no stream is held and the socket is shut |
| WebSocketLaws.OpenTruncated | WebSockets/Net/WebSocket.cs:311-312 | a response without CRLFCRLF fails the handshake and installs no stream, whatever the request |
| WebSocketLaws.IncompleteKept | WebSockets/Net/WebSocket.cs:564-571 | an incomplete frame ends the loop with the buffer untouched |
| WebSocketLaws.CompleteConsumed | WebSockets/Net/WebSocket.cs:569-624 | a complete frame is dispatched and exactly its header and payload bytes are removed from the front |
| WebSocketLaws.MalformedStops | WebSockets/Net/WebSocket.cs:553-563 | a non-FIN, masked or 64-bit-length frame stops the loop with that error and changes nothing |
| WebSocketLaws.UnknownOpcodeStops | WebSockets/Net/WebSocket.cs:617-620 | an unknown opcode fails with ArgumentException naming the opcode and changes nothing |
| WebSocketLaws.CallbacksGetWholeBuffer | WebSockets/Net/WebSocket.cs:577-595 | OnBinary and OnPong receive the whole receive buffer, which is longer than the payload |
| WebSocketLaws.PingWithPayloadThrows | WebSockets/Net/WebSocket.cs:587-590 | a received Ping with a payload fails the Pong's length guard |
| WebSocketLaws.EmptyPingAnswered | WebSockets/Net/WebSocket.cs:587-595 | an empty Ping is answered with one Pong while not shut; when shut, Ping and Pong do nothing |
| WebSocketLaws.CloseFrameHandled | WebSockets/Net/WebSocket.cs:596-615 | a received Close reports OnShutdown with its code, or Normal when the body is shorter than 2 bytes, then the socket is closed |
| WebSocketLaws.CloseFrameEcho | WebSockets/Net/WebSocket.cs:598-611 | a received Close is echoed with the same code |
| WebSocketLaws.CloseFrameShutdown | WebSockets/Net/WebSocket.cs:607-614 | the echo is Shutdown(code), and Close follows it |
| WebSocketLaws.ShutdownKeepsEvents | WebSockets/Net/WebSocket.cs:183-201 | Shutdown raises no callback |
| WebSocketLaws.CloseFrameWhenShut | WebSockets/Net/WebSocket.cs:607-614 | a Close received when already shut only closes |
| WebSocketLaws.RecvLoopKeepsShut | WebSockets/Net/WebSocket.cs:538-626 | the receive loop never clears the shut flag |
| WebSocketLaws.ReceiveRestarts | WebSockets/Net/WebSocket.cs:628-635 | the next read is started exactly when the loop passed, the socket is not shut and the same stream is held; onError fires on a failure exactly when the same stream is still held |
| WebSocketLaws.ReceiveEndOfStream | WebSockets/Net/WebSocket.cs:529-533 | a read of zero bytes reports OnClosed and starts no further read |
| WebSocketLaws.IterationCloseShuts | WebSockets/Net/WebSocket.cs:596-616 | a complete Close frame leaves the socket shut |
| WebSocketLaws.ReceiveCloseStops | WebSockets/Net/WebSocket.cs:614-628 | after a read that holds a Close frame, no further read is started |
| WebSocketLaws.SendTextFrame | WebSockets/Net/WebSocket.cs:357-367 | an unmasked short text is sent as one 2-byte-header frame |
| WebSocketLaws.TextFrameReceived | WebSockets/Net/WebSocket.cs:581-583 | a short text frame at the front is delivered to OnString and removed from the front |
| WebSocketLaws.TextFramesReceived | WebSockets/Net/WebSocket.cs:538-626 | a buffer of short text frames is delivered whole, in order, and nothing is left |
| HttpResponse.TrimHttpKeeps | WebSockets/Net/WebSocket.cs:332 | the collection's trim keeps a value whose ends are no tab, LF, VT, FF, CR or space, and empties one made only of them |
| HttpResponse.FoldCheckFolded | WebSockets/Net/WebSocket.cs:332 | the collection's value check passes exactly when every CR is followed by LF and every LF by a space or tab, with no other control character and no DEL |
| HttpResponse.NameScans | WebSockets/Net/WebSocket.cs:332 | the two name scans (separators, then non-ASCII) pass exactly when every character is printable ASCII and no separator |
| HttpResponse.SetHeader | WebSockets/Net/WebSocket.cs:326-332 | an empty name throws ArgumentNullException and every other refusal is an ArgumentException; once stored, the name looks up, case-insensitively, the value trimmed at both ends, and no other header changes |
| HttpResponse.SetHeaderAccepts | WebSockets/Net/WebSocket.cs:326-332 | the collection takes a header exactly when its name is valid and its trimmed value passes the value check, whatever it already holds |
| HttpResponse.StoreLineAccepts | WebSockets/Net/WebSocket.cs:324-333 | one line is taken exactly when its name and value, split as the loop splits them, are acceptable |
| HttpResponse.StoreStatusLine | WebSockets/Net/WebSocket.cs:325-327 | a line without ':' is taken exactly when its trimmed text passes the value check, and is then stored trimmed under "HTTP" |
| HttpResponse.StoreHeaderLine | WebSockets/Net/WebSocket.cs:328-333 | other lines are split at the first ':'; the line is taken exactly when the name is valid and the value passes the check; the value stored is left-trimmed by the loop and trimmed at both ends by the collection; an empty name throws ArgumentNullException |
| HttpResponse.StoreAll | WebSockets/Net/WebSocket.cs:320-333 | storing the lines in order fails exactly when one of them is not acceptable |
| HttpResponse.Last4IsEof | WebSockets/Net/WebSocket.cs:317-319 | the shift register equals CRLFCRLF exactly when the last four bytes read are CRLFCRLF |
| HttpResponse.Last4IsEol | WebSockets/Net/WebSocket.cs:320-321 | its low half equals CRLF exactly when the last two bytes read are CRLF |
| HttpResponse.ReadResponseTerminator | WebSockets/Net/WebSocket.cs:308-319 | reading succeeds only just after the first CRLFCRLF and fails when there is none |
| HttpResponse.ReadFramed | WebSockets/Net/WebSocket.cs:305-337 | for any header store, lines each ended by CRLF and then an empty line are read to the end with the lines stored in order, or the read fails with the exception of the first line refused |
| HttpResponse.ReadResponseLines | WebSockets/Net/WebSocket.cs:305-337 | a response framed as lines and an empty line is read to its end with its lines stored in order when the collection takes them all (StoreAll), and otherwise fails with the exception of the first line it refuses |
| Helper.CheckArg | WebSockets/Utils/Helper.cs:301-305 | passes exactly when the condition holds, else ArgumentException with the message |
| Helper.CheckOperation | WebSockets/Utils/Helper.cs:341-345 | passes exactly when the condition holds, else InvalidOperationException with the message |
| Helper.CheckArgNotNull | WebSockets/Utils/Helper.cs:316-325 | passes exactly when the argument is not null, else ArgumentNullException with the message or the type name |
| Helper.Check | WebSockets/Utils/Helper.cs:282-299 | passes exactly when the condition holds, else the given exception |
| Helper.DigitRunLen | WebSockets/Utils/Helper.cs:104-114 | the digit run stays within the string and the end, and stops before a non-digit |
| Helper.MulTenAdd | WebSockets/Utils/Helper.cs:109-110 | n*10 + d in unchecked 64-bit arithmetic |
| Helper.ScanDigits | WebSockets/Utils/Helper.cs:104-114 | the digit loop computes ScanSpec |
| Helper.ScanOf | WebSockets/Utils/Helper.cs:104-114 | a digit string followed by a non-digit scans to its 64-bit value |
| Helper.Int64FromString | WebSockets/Utils/Helper.cs:96-117 | the method computes ParseInt64 |
| Helper.ParseInt64Fails | WebSockets/Utils/Helper.cs:98-106 | it throws exactly when pos is out of range, or after a '-' whose digits run to the end of the string |
| Helper.ParseInt64Digits | WebSockets/Utils/Helper.cs:103-116 | a digit run gives its 64-bit value |
| Helper.ParseInt64Negative | WebSockets/Utils/Helper.cs:99-116 | a leading '-' negates the value |
| Helper.ParseInt64NoDigits | WebSockets/Utils/Helper.cs:103-116 | no digit gives 0 |
| Helper.FracTable | WebSockets/Utils/Helper.cs:153-159 | entry i is 10^-(i+1) |
| Helper.InitDecimalFracs | WebSockets/Utils/Helper.cs:153-159 | the loop fills the array with FracTable |
| Helper.DecimalFromString | WebSockets/Utils/Helper.cs:162-202 | the method computes ParseDecimal |
| Helper.DecimalWithoutPoint | WebSockets/Utils/Helper.cs:164-181 | without the dot, the result is the Int64FromString value with scale 0, and it fails exactly when that does |
| Helper.ParseDecimalPlain | WebSockets/Utils/Helper.cs:183-198 | as written, "ip.fp" gives ip*10^(k+1) + fp at scale k+1 for k fraction digits, whenever that mantissa fits the 96 bits of System.Decimal |
| Helper.DecimalTooManyFractionDigits | WebSockets/Utils/Helper.cs:198 | 20 or more fraction digits index past the table |
| Helper.DecimalOneAndAHalf | WebSockets/Utils/Helper.cs:198 | as written, "1.5" parses as 1.05 |
| Helper.DecimalFixedValue | WebSockets/Utils/Helper.cs:198 | with the index corrected, "ip.fp" gives ip*10^k + fp at scale k, the value Decimal.Parse gives, whenever that mantissa fits the 96 bits of System.Decimal |
| SocketIO.DisconnectLine | WebSockets/Net/SocketIO.cs:132-137 | the disconnect packet is "0::" followed by exactly the end point |
| SocketIO.Line | WebSockets/Net/SocketIO.cs:139-195 | every packet line starts with its type digit and ':' |
| SocketIO.Colon | WebSockets/Net/SocketIO.cs:284-285 | the field bound found is just after a ':' at or after from, or 0 when there is none |
| SocketIO.DecodeDispatch | WebSockets/Net/SocketIO.cs:245-347 | dispatch on the first character: '2'/'8' are echoed verbatim, '5'/'6'/'7' ignored, other characters reported as unknown, and an empty line as an index error |
| SocketIO.DisconnectRoundTrip | WebSockets/Net/SocketIO.cs:248-255 | decoding a disconnect line gives back its end point, or null when it is empty |
| SocketIO.ConnectRoundTrip | WebSockets/Net/SocketIO.cs:256-273 | decoding a connect line gives back the path and the query after '?', or null |
| SocketIO.MidRoundTrip | WebSockets/Net/SocketIO.cs:288-290 | the message id field decodes to the id written, or null when absent |
| SocketIO.MidFieldCases | WebSockets/Net/SocketIO.cs:288-290 | an empty id field is null, a field starting with neither '-' nor a digit is 0, and a digit run is its wrapped value |
| SocketIO.FieldsOfLine | WebSockets/Net/SocketIO.cs:283-323 | the id, end point and data decoded from a '3'/'4' line, with the end point as the code computes it |
| SocketIO.LineOf | WebSockets/Net/SocketIO.cs:155-165 | Message and Json lines are "T:id:ep:data" |
| SocketIO.JsonRoundTrip | WebSockets/Net/SocketIO.cs:155-165 | with an empty end point, decoding a Json or Message line gives back the data and id, even when the data holds colons |
| SocketIO.EndPointOverread | WebSockets/Net/SocketIO.cs:294 | with a non-empty end point the decoded end point gains ':' and the first data character, and empty data throws |
| SocketIO.IcbitEndPoint | WebSockets/Net/SocketIO.cs:317 | "4::/icbit:{..}" decodes with end point "/icbit:{" |
| SocketIO.JsonRoundTripExact | WebSockets/Net/SocketIO.cs:294 | with the substring length corrected, every end point decodes back as written |
| SocketIO.HandshakeQuery | WebSockets/Net/SocketIO.cs:356-377 | the handshake URL ends with the query and the time stamp, untouched by the "//" collapsing |
| SocketIO.NoWebSocketTransport | WebSockets/Net/SocketIO.cs:392-396 | a reply that does not offer "websocket" gives null |
| SocketIO.SplitJoinColons | WebSockets/Net/SocketIO.cs:405 | splitting the colon-joined fields gives them back |
| SocketIO.StripWebsocket | WebSockets/Net/SocketIO.cs:404 | removing the transport name leaves the fields before it |
| SocketIO.ReplyToken | WebSockets/Net/SocketIO.cs:398-402 | the token found is the delimiter-bounded one holding "websocket" |
| SocketIO.ReplyOffers | WebSockets/Net/SocketIO.cs:398-423 | a reply offering websocket is parsed from that token's fields |
| SocketIO.ReplyParsed | WebSockets/Net/SocketIO.cs:398-423 | sid, ping and timeout come from the fields, ping defaults to 15 and timeout to ping+10 |
| SocketIO.UsualReply | WebSockets/Net/SocketIO.cs:398-423 | "sid:15:25:websocket,xhr-polling" gives ping 15 and timeout 25 |
| SocketIO.WebSocketUrlOf | WebSockets/Net/SocketIO.cs:417-420 | the WebSocket URL is the handshake URL with http turned into ws and https into wss, cut at its last '/', plus "/websocket/" and the sid |
| SocketIO.SchemeRewrite | WebSockets/Net/SocketIO.cs:417-418 | the scheme rewrite maps http: to ws: and https: to wss: |
| SocketIO.ClosedOnce | WebSockets/Net/SocketIO.cs:225-236 | OnDisconnect is raised at most once, and never after Disconnect |
| SocketIO.SocketIO.constructor | WebSockets/Net/SocketIO.cs:64 | no socket, no callback, not disconnected |
| SocketIO.SocketIO.Close | WebSockets/Net/SocketIO.cs:86-94 | the held socket loses its handler and is closed, and then no socket is held |
| SocketIO.SocketIO.Open | WebSockets/Net/SocketIO.cs:70-84 | closes any previous socket; fails with the parse error, or NotSupportedException when no websocket is offered; otherwise a fresh socket is opened and held exactly when its handshake passes |
| SocketIO.SocketIO.Attach | WebSockets/Net/SocketIO.cs:76-83 | the outcome of the parsed response as Open states it |
| SocketIO.SocketIO.Send | WebSockets/Net/SocketIO.cs:139-195 | each packet is sent as its Line, bare ones in ASCII, and a missing socket throws |
| SocketIO.SocketIO.Disconnect | WebSockets/Net/SocketIO.cs:132-137 | sends the disconnect line; on success it marks the adapter disconnected and closes the socket |
| SocketIO.SocketIO.OnString | WebSockets/Net/SocketIO.cs:240-349 | raises the callback Decode gives, echoes '2'/'8' lines, and reports a failed echo as unexpected |
| SocketIO.SocketIO.OnError | WebSockets/Net/SocketIO.cs:212-218 | reports the error |
| SocketIO.SocketIO.OnClosed | WebSockets/Net/SocketIO.cs:225-236 | the transition AfterClosed |
| Pusher.EventNamesDistinct | WebSockets/Net/Pusher.cs:244-278 | the three event names are distinct |
| Pusher.HandleEventCases | WebSockets/Net/Pusher.cs:236-279 | connection_established raises OnConnect with the decoded data; subscription_succeeded and data raise nothing; other events report an unknown event |
| Pusher.ClosedOnce | WebSockets/Net/Pusher.cs:221-232 | OnDisconnect is raised at most once, and never after Disconnect |
| Pusher.Pusher.constructor | WebSockets/Net/Pusher.cs:46 | no socket, no callback, not disconnected |
| Pusher.Pusher.Close | WebSockets/Net/Pusher.cs:67-75 | the held socket loses its handler and is closed, and then no socket is held; without a socket nothing happens |
| Pusher.Pusher.Open | WebSockets/Net/Pusher.cs:52-65 | closes any previous socket and opens the URL directly, without masking |
| Pusher.Pusher.Subscribe | WebSockets/Net/Pusher.cs:82-95 | sends the fixed subscription text, whatever channel is passed |
| Pusher.Pusher.Disconnect | WebSockets/Net/Pusher.cs:128-133 | marks the adapter disconnected and closes |
| Pusher.Pusher.Unsent | WebSockets/Net/Pusher.cs:135-191 | the other protocol packets send nothing and change nothing |
| Pusher.Pusher.OnString | WebSockets/Net/Pusher.cs:236-279 | raises the callback HandleEvent gives and never closes the socket |
| Pusher.Pusher.OnError | WebSockets/Net/Pusher.cs:208-214 | reports the error |
| Pusher.Pusher.OnClosed | WebSockets/Net/Pusher.cs:221-232 | the transition AfterClosed |
| IcbitTypes.StatusValueRoundTrip | TradeBot/IcbitTypes.cs:38-46 | OrderStatus values convert to and from their numbers |
| IcbitTypes.BuyRoundTrip | TradeBot/IcbitTypes.cs:103-112 | Buy is true exactly when dir is 1 |
| IcbitTypes.NewStyleIsNotLegacy | TradeBot/IcbitTypes.cs:169-191 | IsFuturesNewStyle is false exactly for a futures instrument with one of the eleven legacy tickers |
| IcbitTypes.MultiplierChoice | TradeBot/IcbitTypes.cs:153-167 | GetPriceMultiplier picks 1e-8 for Currency and legacy Futures, the ratio for new-style Futures, and 1 otherwise |
| Icbit.CommandRoundTrip | TradeBot/Icbit.cs:74 | a command is "4::/icbit:" plus its JSON, and decodes back with end point "/icbit" once the end point is read correctly |
| Icbit.CommandInjective | TradeBot/Icbit.cs:74 | different JSON gives different commands |
| Icbit.CreateOrderTokensDiffer | TradeBot/Icbit.cs:72-74 | create_order commands with different tokens differ |
| Icbit.CancelOrdersDiffer | TradeBot/Icbit.cs:81-83 | cancel commands for different oids differ |
| Icbit.Cancels | TradeBot/Icbit.cs:90-96 | one cancel command per key, each with market Futures |
| Icbit.SendAllStep | TradeBot/Icbit.cs:90-96 | the commands are sent in order and sending stops at the first failure |
| Icbit.Reconcile | TradeBot/Icbit.cs:157-182 | a known oid with a terminal status is removed and any other replaced; an unknown oid is added only as New or PartiallyFilled; no other entry changes; open orders stay open |
| Icbit.ApplyOrdersFacts | TradeBot/Icbit.cs:153-183 | after a list of orders, an oid not mentioned is unchanged; a mentioned oid is held exactly when its last order is not terminal and either it was held after the orders listed before it or that order is New or PartiallyFilled, and then it holds that last order |
| Icbit.SnapshotOrders | TradeBot/Icbit.cs:145-151 | on an empty map, the result holds only open orders of mentioned oids, each the last order listed for its oid, and it holds every oid whose last order is New or PartiallyFilled |
| Icbit.MaxToken | TradeBot/Icbit.cs:157 | orderToken becomes the largest of itself and every received token |
| Icbit.LoadFirst | TradeBot/Icbit.cs:134-138 | clearing and refilling with TryAdd keeps the first entry for each ticker, and every ticker listed |
| Icbit.ReceiveFacts | TradeBot/Icbit.cs:119-224 | packets that are not private balance, order or instrument updates change nothing; open orders stay open; orderToken never decreases; the connect event is not raised again once connected; events are only appended |
| Icbit.ConnectOnce | TradeBot/Icbit.cs:201-206 | over any packet sequence the connect event fires at most once |
| Icbit.Icbit.constructor | TradeBot/Icbit.cs:41-57 | an empty cache and the connection URL built from the key, signature and nonce |
| Icbit.Icbit.Connect | TradeBot/Icbit.cs:59-66 | opens the socket.io connection in ASCII and sends the join line |
| Icbit.Icbit.CreateOrder | TradeBot/Icbit.cs:68-79 | pre-increments orderToken, which then exceeds every token seen until it wraps, and sends the create_order command with it |
| Icbit.Icbit.NextToken | TradeBot/Icbit.cs:72 | the 64-bit pre-increment of orderToken |
| Icbit.Icbit.CancelOrder | TradeBot/Icbit.cs:81-88 | sends the cancel command with the oid and market |
| Icbit.Icbit.ClearAllOrders | TradeBot/Icbit.cs:90-96 | sends one cancel per current order |
| Icbit.Icbit.SubscribeToChannel | TradeBot/Icbit.cs:98-104 | sends the subscribe command |
| Icbit.Icbit.GetTrades | TradeBot/Icbit.cs:106-112 | sends the get_trades command |
| Icbit.Icbit.LoadOrder | TradeBot/Icbit.cs:157-182 | the order map becomes Reconcile of the old map, and orderToken is raised to the order's token |
| Icbit.Icbit.LoadOrders | TradeBot/Icbit.cs:153-183 | the loop computes ApplyOrders and MaxToken |
| Icbit.Icbit.LoadBalance | TradeBot/Icbit.cs:137-138 | the balance map is refilled first-wins, and nothing else changes |
| Icbit.Icbit.LoadInstruments | TradeBot/Icbit.cs:198-199 | the instrument map is refilled first-wins, and nothing else changes |
| Icbit.Icbit.OnJson | TradeBot/Icbit.cs:119-224 | the cache becomes Receive of the old cache and the packet |
| Icbit.Icbit.OnBalance | TradeBot/Icbit.cs:129-142 | a user_balance packet as Receive says |
| Icbit.Icbit.OnOrders | TradeBot/Icbit.cs:145-187 | a user_order packet as Receive says |
| Icbit.Icbit.OnInstruments | TradeBot/Icbit.cs:190-207 | an instruments packet as Receive says |
| MtgoxTypes.EnumValues | TradeBot/MtgoxTypes.cs:18-43 | OrderDirection values are ask 1 and bid 2; N and False are 0, Y and True are 1 |
| MtgoxTypes.PriceFormat | TradeBot/MtgoxTypes.cs:112 | prices print in N3 exactly for yen, otherwise N5 |
| MtgoxTypes.MicrosToTicksTimesTen | TradeBot/MtgoxTypes.cs:120-122 | the two shifts and the add multiply by ten modulo 2^64 |
| MtgoxTypes.AddToEra | TradeBot/MtgoxTypes.cs:123 | adding to 1970-01-01 succeeds exactly within the DateTime range |
| MtgoxTypes.UtcWhenExact | TradeBot/MtgoxTypes.cs:118-124 | UtcWhen is 1970-01-01 plus ten ticks per microsecond, or ArgumentOutOfRangeException outside the DateTime range |
| MtgoxTypes.UtcWhenMonotone | TradeBot/MtgoxTypes.cs:118-124 | later stamps give later times |
| MtgoxTypes.Depth.UtcWhen | TradeBot/MtgoxTypes.cs:118-124 | the result is a valid DateTime |
| MtgoxTypes.Depth.ToText | TradeBot/MtgoxTypes.cs:109-115 | ToString throws exactly when UtcWhen does |
| MtgoxTypes.Trade.UtcWhen | TradeBot/MtgoxTypes.cs:251-257 | the result is a valid DateTime |
| MtgoxTypes.Trade.ToText | TradeBot/MtgoxTypes.cs:242-248 | ToString throws exactly when UtcWhen does |
| MtgoxTypes.SameClock | TradeBot/MtgoxTypes.cs:251-257 | Trade dates its tid exactly as Depth dates now |
| MtgoxTypes.Shown | TradeBot/MtgoxTypes.cs:189-194 | a missing ticker value prints "*", a present one its display text |
| MtgoxTypes.OldTicker.ToText | TradeBot/MtgoxTypes.cs:149-158 | the text opens with "OldTicker={ bid=" and the bid at five decimals, and closes with the volume at eight decimals and " }" |
| MtgoxTypes.TickerTextEnds | TradeBot/MtgoxTypes.cs:186-195 | the text opens with "Ticker={ bid=" and the shown bid, and closes with the shown volume and " }" |
| MtgoxTypes.TickerAllMissing | TradeBot/MtgoxTypes.cs:186-195 | a ticker with none of its six values prints a star in each place |
| MtgoxTypes.TickerTextDependsOnShown | TradeBot/MtgoxTypes.cs:186-195 | only the six printed values decide the text |
| MtgoxTypes.OneView | TradeBot/MtgoxTypes.cs:309-329 | at most one typed view of the shared slot is non-null, and none when the slot is empty |
| MtgoxTypes.PacketTextErrors | TradeBot/MtgoxTypes.cs:331-351 | ToString fails only for a private packet whose payload fails, with NullReferenceException for an empty slot; an unnamed op gives "<unknown>" |
| MtgoxTypes.UnsubscribeText | TradeBot/MtgoxTypes.cs:342-346 | unsubscribe prints as subscribe with "un" inserted |
| MtgoxTypes.RemarkText | TradeBot/MtgoxTypes.cs:335-341 | a remark with success prints the plain remark text plus the success flag |
| MtgoxTypes.PrivateText | TradeBot/MtgoxTypes.cs:347-348 | a private packet prints its payload's text |
| MtgoxTypes.Packet.constructor | TradeBot/MtgoxTypes.cs:296-308 | all fields default and the slot is empty |
| MtgoxTypes.Packet.GetDepth | TradeBot/MtgoxTypes.cs:310-314 | the depth view is non-null exactly when the slot holds a Depth |
| MtgoxTypes.Packet.GetTrade | TradeBot/MtgoxTypes.cs:315-319 | the trade view is non-null exactly when the slot holds a Trade |
| MtgoxTypes.Packet.GetTicker | TradeBot/MtgoxTypes.cs:320-324 | the ticker view is non-null exactly when the slot holds a Ticker |
| MtgoxTypes.Packet.GetOldTicker | TradeBot/MtgoxTypes.cs:325-329 | the old-ticker view is non-null exactly when the slot holds an OldTicker |
| MtgoxTypes.Packet.SetDepth | TradeBot/MtgoxTypes.cs:310-314 | after setting depth only the depth view returns it, and no other field changes |
| MtgoxTypes.Packet.SetTrade | TradeBot/MtgoxTypes.cs:315-319 | after setting trade only the trade view returns it, and no other field changes |
| MtgoxTypes.Packet.SetTicker | TradeBot/MtgoxTypes.cs:320-324 | after setting ticker only the ticker view returns it, and no other field changes |
| MtgoxTypes.Packet.SetOldTicker | TradeBot/MtgoxTypes.cs:325-329 | after setting oldticker only that view returns it, and no other field changes |
| MtgoxTypes.Packet.ToText | TradeBot/MtgoxTypes.cs:331-351 | ToString fails exactly for a private packet whose payload fails to print |

## Left out

- Sockets, DNS, TLS and the certificate callback, which accepts every certificate: streams are numbers and writes are records in an output sequence.
- Asynchronous BeginRead/EndRead: each completed read is a chunk given to `Receive`.
- Locks, `Interlocked` and `volatile`: each send and each receive callback is atomic in the model.
- SHA-1, base64, `RandomNumberGenerator` and `Helper.Random`: the accept key and the mask keys come from `Env.accept` and `Env.rng`. They are uninterpreted.
- WebSocketSpec.Open: the request bytes come from `Env.request` as a function of the key. How `makeHandshake` formats them from the URL and the request headers (`WebHeaderCollection.ToString`, UTF-8) is library formatting and is not modelled.
- HttpResponse.StoreBytes: a response line is decoded byte for byte (Latin-1), not as UTF-8. A line holding non-ASCII bytes is therefore stored, or refused, differently from the source.
- HttpResponse.SetHeader: the header collection's own length limit on values depends on the collection type, which is not known here, so no length check is modelled.
- Helper.ParseDecimalPlain, Helper.DecimalFixedValue: the rounding of System.Decimal beyond a 96-bit mantissa is not modelled. Both lemmas are stated only for mantissas below 2^96, and `DecAdd`/`DecMul` compute exactly.
- The HTTP POST and `DateTime.UtcNow` in `parseResponse`: the reply text and the time stamp are parameters.
- JSON (de)serialization: Icbit takes an already decoded `Packet`, and Pusher a `Decoder` of uninterpreted functions.
- `Helper.DoubleFromString`, the floating-point values of `GetPriceMultiplier`, and the double fields of Position and Instrument: floating point. Only the multiplier's branch choice is modelled.
- Culture-dependent number and date formatting (N3, N5, N8, dates, `ToLocalTime`): a `Formatter` parameter. `When()` is not modelled.
- Logging, Trace, the uptime counter and `Dispose`.
- The legacy 0x00/0xFF framing's index arithmetic: only the branch decision and the stop when no 0xFF terminator is present are modelled.
- Icbit's `user_trades` handling only writes to the console, so the model leaves the cache unchanged there.
- IcbitTypes `Packet.ToString`, which returns a constant text, and the Icbit event-raising wrappers `OnOrdersChanged`/`OnBalanceChanged`/`OnConnect`, which are recorded as events.
- Icbit.Icbit.ClearAllOrders: the order in which the dictionary enumerates its keys is a parameter `oids` that enumerates the current orders.
- Icbit.Icbit.constructor: the authentication signature and nonce are parameters, since they come from an HMAC and the clock.
- MarketMaker, OKCoin, OKCoinTypes, Bitstamp, BitstampTypes and Program: configuration, REST glue and data holders outside this model (Bitstamp is compiled out).
- WebSocketSpec.SendData, SendText, SendBinary, Ping and Shutdown: their own ensures state only the connection invariant. What they do is stated by the lemmas of `WebSocketLaws`.

## Findings

| source | as written | input that shows it | evidently intended | confidence | as-written member | corrected member |
|---|---|---|---|---|---|---|
| WebSockets/Net/WebSocket.cs:434-436 | the 16-bit extended length is taken as bytes 0 and 1 of HostToNetworkOrder of a 32-bit int | a 200-byte frame sent from a little-endian host carries length bytes 0,0 and is read as an empty payload | the two low-order bytes of the length in network order | high (not executed) | Frame.ParseHeaderAsWritten | Frame.ParseHeaderRoundTrip |
| WebSockets/Net/WebSocket.cs:463 | maskFrame XORs the receive buffer `_buf` instead of the send buffer | any non-empty payload sent with masking on leaves with the mask bit and key set but unmasked | mask the outgoing payload, as section 5.3 of RFC 6455 requires | high (not executed) | WebSocketLaws.SentPayloadUnmasked | Frame.MaskedTwice |
| WebSockets/Net/SocketIO.cs:294 | the end point is `Substring(pos2, pos3 - pos2 + 1)`, which includes the closing ':' and one data character | "4::/icbit:{}" gives end point "/icbit:{" | `pos3 - pos2 - 1`, giving "/icbit" | high (not executed) | SocketIO.IcbitEndPoint | SocketIO.JsonRoundTripExact |
| WebSockets/Utils/Helper.cs:198 | the fraction is scaled by `s_fracDec[cntf]`, which is 10^-(cntf+1) | "1.5" parses as 1.05 | scale by 10^-cntf, the value Decimal.Parse gives | high (not executed) | Helper.DecimalOneAndAHalf | Helper.DecimalFixedValue |
| WebSockets/Net/WebSocket.cs:91 | the Version setter throws when the value is NOT null or empty | setting Version to "13" throws ArgumentException | throw only for a null or empty value | medium (not executed) | WebSocketSpec.VersionCheckRejectsVersions | WebSocketSpec.VersionCheckFixed |
