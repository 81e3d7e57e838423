# SSCP integration core in Dafny

This project models the core of the SSCP Home Assistant integration. SSCP is the
request/response protocol that Domat PLCs speak over TCP.

The model has two parts.

1. `SSCPClient` (`sscp_client.py`):
   - the frames it builds: login, read request, write request;
   - how it checks and decodes a reply: `parse_response` and `_parse_data`;
   - its connection state machine: `connect`, `login`, `disconnect`, `reconnect` and
     `ensure_connected`;
   - the retry after a broken pipe in `read_variable` and `write_variable`.
2. The options and configuration flow (`config_flow.py`):
   - the loop that reads a `.vlist` project file into a table of variables;
   - the merge that refreshes entities from that table;
   - lookup of an entity by its label `"name (UID: uid)"`;
   - editing and deleting an entity.

Modules, one file each:

| file | module | what it holds |
|---|---|---|
| `bytes.dfy` | `Bytes` | bytes; big-endian unsigned and two's-complement integers of a given width (`int.to_bytes` / `int.from_bytes`); Python slicing |
| `errors.dfy` | `Errors` | the exceptions the code raises, as an `Error` datatype, and `Result` |
| `pytext.dfy` | `PyText` | the Python string operations the `.vlist` loop and the labels use: `strip`, `strip(c)`, `split(';')`, `replace('$', '')`, `int(text, base)` and `str(n)` |
| `codec.dfy` | `Codec` | the PLC type names, with `.upper()` matching; the value encoding of `write_variable`; the decoding of `_parse_data` |
| `frames.dfy` | `Frames` | the three request frames, each as a function and as the method that builds it step by step; a decoder for each frame; `parse_response`; the write reply check |
| `session.dfy` | `Session` | the connection state machine as functions on a state value: socket, `connected`, `loggedin`, the scripted network, and the frames sent |
| `session_props.dfy` | `SessionProperties` | what the state machine promises: reconnect outcomes, retry after a broken pipe, how errors propagate |
| `sscp_client.dfy` | `SscpClient` | the address parse of `__init__`; `class Client`, whose fields its methods update in place, each method proved equal to the `Session` function |
| `vlist.dfy` | `Vlist` | the `.vlist` loader loop and its properties; a line writer and the round trip through the loader |
| `entities.dfy` | `Entities` | labels, first-match lookup, `list.remove`, the reload merge; `class OptionsFlow` with its edit, delete and reload steps |

How the socket is modelled:
- The socket is a pair of scripted streams. `accepts[n]` says whether the n-th `connect` succeeds.
- `replies[n]` is what the n-th `sendall` + `recv(1024)` yields. It is one of three things:
  - the bytes received, cut to 1024;
  - a `BrokenPipeError`;
  - another socket error.
- Every frame handed to `sendall` is appended to `wire`.
- Each pass through the broken-pipe recursion of `read_variable`/`write_variable` uses up one
  reply. That is why the recursion, which has no bound in the code, terminates in the model.
- The code rebuilds the request frame inside the `try` block on every recursive call. Building
  it reads only the arguments and the station, so every pass sends the same bytes. The model
  builds it once and hands it, or the error raised while building it, to `Client.Retry`. The
  error is still reported only after `ensure_connected` succeeds, as in the code.

## Model

Source paths are relative to the repository root. `sscp_client.py` and `config_flow.py` are
under `custom_components/sscp_integration/`.

| member | source | states |
|---|---|---|
| `Bytes.ToBytes` | custom_components/sscp_integration/sscp_client.py:185-206 | `int.to_bytes(width, 'big', signed)` gives `width` bytes exactly when the value fits the width and signedness, and raises otherwise |
| `Bytes.ToBytesRoundTrip` | custom_components/sscp_integration/sscp_client.py:194-206 | `from_bytes` of `to_bytes` returns every value that fits |
| `Bytes.FromBytesRoundTrip` | custom_components/sscp_integration/sscp_client.py:317-342 | every byte string decodes to a value that fits its width and encodes back to the same bytes |
| `Bytes.UIntRoundTrip` | custom_components/sscp_integration/sscp_client.py:115-120 | the big-endian unsigned encoding of `struct.pack(">I")` / `">H"` is undone by `int.from_bytes` |
| `Bytes.UIntBytesOfValue` | custom_components/sscp_integration/sscp_client.py:280 | re-encoding the value of a byte string at its own width gives the string back |
| `Bytes.Slice` | custom_components/sscp_integration/sscp_client.py:280-281 | Python slicing `s[i:j]`: its length is clamped to the string, and element k is `s[i + k]` |
| `PyText.TrimStart` | custom_components/sscp_integration/config_flow.py:96 | `strip()`, left half: removes exactly the longest prefix of characters to drop |
| `PyText.TrimEnd` | custom_components/sscp_integration/config_flow.py:96 | `strip()`, right half: removes exactly the longest suffix of characters to drop |
| `PyText.RemoveChar` | custom_components/sscp_integration/config_flow.py:98 | `replace('$', '')`: no `'$'` is left, a text without `'$'` is unchanged, and nothing is added |
| `PyText.RemoveCharOne` | custom_components/sscp_integration/config_flow.py:98 | one character is dropped when it is `'$'` and kept otherwise |
| `PyText.RemoveCharAppend` | custom_components/sscp_integration/config_flow.py:98 | removal distributes over concatenation; with `RemoveCharOne` this pins the result to the input with every `'$'` dropped and every other character kept in order |
| `PyText.Split` | custom_components/sscp_integration/config_flow.py:96 | `split(';')`: at least one field, no field holds `';'`, and joining the fields with `';'` gives the text back |
| `PyText.SplitJoin` | custom_components/sscp_integration/config_flow.py:359 | splitting the join of fields that hold no separator gives exactly those fields |
| `PyText.ParseDecimalString` | custom_components/sscp_integration/config_flow.py:101 | `int(str(n))` is `n` for every integer |
| `PyText.DecimalStringInjective` | custom_components/sscp_integration/config_flow.py:241 | different uids print differently in a label |
| `Codec.UpperIdempotent` | custom_components/sscp_integration/sscp_client.py:302 | upper-casing an already upper-cased name changes nothing, so a name and its `.upper()` select the same type |
| `Codec.UpperNameOf` | custom_components/sscp_integration/sscp_client.py:191-210 | the ten type names the code compares against are already upper case |
| `Codec.TypeOf` | custom_components/sscp_integration/sscp_client.py:301-355 | a type name is recognised exactly when its upper-case form is one of BOOL, BYTE, WORD, INT, UINT, DINT, UDINT, LINT, REAL, LREAL |
| `Codec.TypeOfIgnoresCase` | custom_components/sscp_integration/sscp_client.py:191-192 | type names are compared case-insensitively |
| `Codec.TypeOfNameOf` | custom_components/sscp_integration/sscp_client.py:304-352 | every type is recognised under its own name |
| `Codec.EncodeAs` | custom_components/sscp_integration/sscp_client.py:191-212 | a value encodes to exactly the type's width: BOOL and BYTE 1, WORD, INT and UINT 2, DINT and UDINT 4, LINT 8. An integer encodes exactly when it fits the type's width and signedness. A bool or int written as BOOL never fails |
| `Codec.EncodeValue` | custom_components/sscp_integration/sscp_client.py:190-212 | an unknown type name raises "Unsupported type"; a known one encodes to its width |
| `Codec.DecodeAs` | custom_components/sscp_integration/sscp_client.py:304-352 | `_parse_data` succeeds exactly when the payload length equals the type's width, and otherwise names the type and the width it expects |
| `Codec.DecodeValue` | custom_components/sscp_integration/sscp_client.py:297-355 | an unknown type name raises "Unsupported type" with the upper-cased name; a known one decodes exactly the payloads of its width |
| `Codec.EncodeDecode` | custom_components/sscp_integration/sscp_client.py:191-342 | decoding an encoded value gives the value back: BOOL as true/false, integers unchanged |
| `Codec.IntegerRoundTrip` | custom_components/sscp_integration/sscp_client.py:193-206 | an integer in range survives encode then decode |
| `Codec.DecodeEncode` | custom_components/sscp_integration/sscp_client.py:304-342 | re-encoding a decoded payload gives the payload back, except that a BOOL byte other than 0 comes back as 1 |
| `Codec.IntegerRange` | custom_components/sscp_integration/sscp_client.py:193-206 | the values each integer type accepts are exactly its range, e.g. −32768..32767 for INT and 0..2^32−1 for UDINT |
| `Frames.Header` | custom_components/sscp_integration/sscp_client.py:42-44 | the frame header is 5 bytes: the station, the two function bytes, and a big-endian 2-byte field that reads back as the data length |
| `Frames.DescriptorBytes` | custom_components/sscp_integration/sscp_client.py:101-120 | one descriptor is 5 bytes when offset is 0 and 13 bytes otherwise; it is encodable exactly when uid, and offset and length if present, fit 32 bits unsigned |
| `Frames.ReadPayload` | custom_components/sscp_integration/sscp_client.py:99-121 | the payload is built exactly when every descriptor is encodable, and its length is the sum of the descriptor sizes |
| `Frames.ReadPayloadSnoc` | custom_components/sscp_integration/sscp_client.py:101-120 | one more pass of the loop appends that descriptor's bytes |
| `Frames.BuildReadRequest` | custom_components/sscp_integration/sscp_client.py:93-133 | the loop that grows `data` and then `frame` returns exactly the read request |
| `Frames.ReadRequestOutcome` | custom_components/sscp_integration/sscp_client.py:115-125 | the request is built exactly when the station fits a byte, every descriptor is encodable and the payload is at most 65535 bytes. A longer payload raises "exceeds 2 byte limit" |
| `Frames.ReadRequestLayout` | custom_components/sscp_integration/sscp_client.py:93-131 | byte 0 is the station, bytes 1-2 are `05 00`, bytes 3-4 are the big-endian payload length, and that length is the actual payload length |
| `Frames.PayloadDecodes` | custom_components/sscp_integration/sscp_client.py:100-120 | the payload decodes back to the descriptors. An offset of 0 carries no length, so such a descriptor comes back with length 0 |
| `Frames.ReadRequestRoundTrip` | custom_components/sscp_integration/sscp_client.py:93-133 | decoding a read request gives back the station and the descriptors |
| `Frames.BuildLoginFrame` | custom_components/sscp_integration/sscp_client.py:39-51 | the step-by-step `frame.extend` sequence builds exactly the login frame |
| `Frames.LoginFrameRoundTrip` | custom_components/sscp_integration/sscp_client.py:39-51 | the login frame is built exactly when station and user-name length fit a byte. Its declared length is `6 + len(user) + 16` and equals the actual payload. It decodes back to station, user and digest |
| `Frames.BuildWriteFrame` | custom_components/sscp_integration/sscp_client.py:172-223 | the step-by-step build of the write frame gives exactly the write frame |
| `Frames.WriteFrameNeverTooLarge` | custom_components/sscp_integration/sscp_client.py:214-217 | a single-variable write payload never reaches the 65535-byte ceiling |
| `Frames.WriteFrameRoundTrip` | custom_components/sscp_integration/sscp_client.py:172-223 | the declared length equals the payload size. The frame decodes to the station and uid, to the offset/length qualifier exactly when offset > 0, and to the encoded value, which decodes to the value written |
| `Frames.WriteReply` | custom_components/sscp_integration/sscp_client.py:234-242 | a write succeeds exactly on reply code `85 10`, fails with "Write operation failed" exactly on `C5 10`, and any other code raises |
| `Frames.AddressCheckedFirst` | custom_components/sscp_integration/sscp_client.py:259-263 | a reply whose byte 0 is not the station raises "Response address mismatch", whatever else it holds |
| `Frames.ReadRejectedExactly` | custom_components/sscp_integration/sscp_client.py:268-274 | "Read operation failed" is raised exactly for a reply from the station with code `C5 00` |
| `Frames.AcceptedShape` | custom_components/sscp_integration/sscp_client.py:259-289 | a reply `parse_response` accepts is longer than 5 bytes, starts with the station and `85 00`, and declares the length of its data part; the value is `_parse_data` of that part |
| `Frames.ShapeIsReadReply` | custom_components/sscp_integration/sscp_client.py:279-285 | a reply of that shape is exactly the 5-byte header followed by its data |
| `Frames.ParseResponseAccepts` | custom_components/sscp_integration/sscp_client.py:259-289 | an accepted reply is station, `85 00`, the length of the rest, then the rest, and its value is `_parse_data` of the rest |
| `Frames.ReadReplyFields` | custom_components/sscp_integration/sscp_client.py:279-285 | a well-formed read reply carries its payload after a 5-byte header declaring its length |
| `Frames.ReadReplyParses` | custom_components/sscp_integration/sscp_client.py:252-289 | `parse_response` of a well-formed read reply is `_parse_data` of its payload |
| `Session.Initial` | custom_components/sscp_integration/sscp_client.py:17-19 | a new client is neither connected nor logged in, and has sent nothing |
| `Session.Connect` | custom_components/sscp_integration/sscp_client.py:23-27 | `connect` sets `connected` exactly when the socket is new and the peer accepts. On refusal, or on a socket already used, it raises and changes no flag |
| `Session.Clip` | custom_components/sscp_integration/sscp_client.py:56 | `recv(1024)` yields at most the first 1024 bytes |
| `Session.Exchange` | custom_components/sscp_integration/sscp_client.py:55-56 | `sendall` then `recv` records the frame, consumes one reply, and changes no flag |
| `Session.Login` | custom_components/sscp_integration/sscp_client.py:31-65 | `login` refuses unless connected and then sends nothing. `loggedin` becomes true only on success and is otherwise left as it was |
| `Session.Disconnect` | custom_components/sscp_integration/sscp_client.py:358-363 | `disconnect` clears `connected` and leaves `loggedin` as it was |
| `Session.Reconnect` | custom_components/sscp_integration/sscp_client.py:381-408 | on success both flags are set. Any failure raises "Reconnection failed" and leaves `loggedin` false |
| `Session.EnsureConnected` | custom_components/sscp_integration/sscp_client.py:376-380 | afterwards the client is connected and logged in, or "Reconnection failed" is raised |
| `Session.TryOnce` | custom_components/sscp_integration/sscp_client.py:144-156 | one attempt: a frame that cannot be built raises before anything is sent. A broken pipe consumes a reply. No flag changes |
| `Session.WithRetry` | custom_components/sscp_integration/sscp_client.py:157-160 | whatever the script, a successful read or write leaves the client connected and logged in, and the state stays consistent |
| `Session.ReadVariable` | custom_components/sscp_integration/sscp_client.py:136-160 | a successful read leaves the client connected and logged in |
| `Session.WriteVariable` | custom_components/sscp_integration/sscp_client.py:163-249 | a successful write leaves the client connected and logged in |
| `SessionProperties.EnsureConnectedOutcome` | custom_components/sscp_integration/sscp_client.py:376-380 | `ensure_connected` does nothing when connected and logged in, and is exactly `reconnect` otherwise |
| `SessionProperties.ReconnectOutcome` | custom_components/sscp_integration/sscp_client.py:381-408 | `reconnect` succeeds exactly when the peer accepts the connection and the login reply has code `81 00`. It then has sent exactly the login frame |
| `SessionProperties.ReconnectRefused` | custom_components/sscp_integration/sscp_client.py:399-408 | a refused connection raises "Reconnection failed", sends nothing and leaves both flags false |
| `SessionProperties.DisconnectProperties` | custom_components/sscp_integration/sscp_client.py:358-363 | `disconnect` is idempotent and keeps `loggedin`. After it, `ensure_connected` reconnects |
| `SessionProperties.FailedLoginKeepsFlag` | custom_components/sscp_integration/sscp_client.py:60-65 | a failed login leaves `loggedin` and `connected` as they were |
| `SessionProperties.RetryWithReply` | custom_components/sscp_integration/sscp_client.py:146-156 | when connected and logged in, an exchange that gets a reply sends the frame once and returns the check of that reply |
| `SessionProperties.RetryWithIoFault` | custom_components/sscp_integration/sscp_client.py:247-249 | a socket error other than a broken pipe propagates without a retry |
| `SessionProperties.ReconnectAfterBreak` | custom_components/sscp_integration/sscp_client.py:381-405 | after a broken pipe, `reconnect` opens a new socket and logs in again, sending only the login frame |
| `SessionProperties.RetryBrokenThenRelogged` | custom_components/sscp_integration/sscp_client.py:157-160 | after a broken pipe and a good reconnect, the same call runs again on the new connection |
| `SessionProperties.RetryAfterBrokenPipe` | custom_components/sscp_integration/sscp_client.py:243-246 | broken pipe, then login accepted, then a reply: the call returns the check of that reply, having sent the frame, the login frame and the frame again |
| `SessionProperties.RetryReconnectRefused` | custom_components/sscp_integration/sscp_client.py:157-159 | when the reconnect after a broken pipe fails, the call raises "Reconnection failed" with no further attempt |
| `SessionProperties.RetryUnbuildableFrame` | custom_components/sscp_integration/sscp_client.py:211-217 | a frame that cannot be built raises before anything is sent |
| `SessionProperties.ReadWithReply` | custom_components/sscp_integration/sscp_client.py:136-156 | a read on a live session sends one read request and returns `parse_response` of the reply |
| `SessionProperties.ReadRejectedOnce` | custom_components/sscp_integration/sscp_client.py:272-274 | a `C5 00` reply fails the read with "Read operation failed" and issues no retry |
| `SessionProperties.ReadWellFormedReply` | custom_components/sscp_integration/sscp_client.py:279-289 | a well-formed reply yields `_parse_data` of its payload |
| `SessionProperties.ReadRetriesAfterBrokenPipe` | custom_components/sscp_integration/sscp_client.py:157-160 | broken pipe, login accepted, then a well-formed reply: the read returns the decoded payload. It has sent the request, the login frame and the request again, and is connected and logged in |
| `SessionProperties.ReadFailsWhenReconnectRefused` | custom_components/sscp_integration/sscp_client.py:157-159 | a broken pipe followed by a refused connection fails the read with "Reconnection failed" |
| `SessionProperties.FirstRead` | custom_components/sscp_integration/sscp_client.py:136-137 | the first read of a new client logs in first. It sends the login frame, then the read request, and returns the decoded value |
| `SessionProperties.WriteWithReply` | custom_components/sscp_integration/sscp_client.py:234-242 | a write on a live session succeeds exactly on `85 10` and fails with "Write operation failed" exactly on `C5 10`, having sent one frame |
| `SessionProperties.WriteRetriesAfterBrokenPipe` | custom_components/sscp_integration/sscp_client.py:243-246 | a write after a broken pipe reconnects and resends the same frame, and its outcome is the check of the reply to that resend |
| `SscpClient.StationOf` | custom_components/sscp_integration/sscp_client.py:15 | the address is `int(text, 16)`. Text that is not hexadecimal raises ValueError |
| `SscpClient.StationOfHex` | custom_components/sscp_integration/sscp_client.py:15 | every station number written in hexadecimal, with or without `0x`, selects that station |
| `PyText.ParseHexString` | custom_components/sscp_integration/sscp_client.py:15 | `int(text, 16)` reads back every non-negative number printed in lower-case hexadecimal, with or without the `0x` prefix |
| `PyText.HexPrefixed` | custom_components/sscp_integration/sscp_client.py:15 | `int("0x" + digits, 16)` is the base-16 value of the digits when they form a digit run, and a ValueError otherwise |
| `SscpClient.DefaultAddress` | custom_components/sscp_integration/config_flow.py:71 | the form's default address text `0x01` selects station 1 |
| `SscpClient.FallbackAddress` | custom_components/sscp_integration/config_flow.py:35-36 | the text `1`, filled in when no address was given, also selects station 1 |
| `SscpClient.BarePrefixRefused` | custom_components/sscp_integration/sscp_client.py:15 | `0x` with no digits is refused |
| `SscpClient.Client.constructor` | custom_components/sscp_integration/sscp_client.py:10-19 | a new client has a new socket and both flags false |
| `SscpClient.Client.Connect` | custom_components/sscp_integration/sscp_client.py:23-27 | updates the fields as `Session.Connect` says |
| `SscpClient.Client.Exchange` | custom_components/sscp_integration/sscp_client.py:55-56 | updates the fields as `Session.Exchange` says |
| `SscpClient.Client.Login` | custom_components/sscp_integration/sscp_client.py:31-65 | builds the login frame step by step, and updates the fields and returns as `Session.Login` says |
| `SscpClient.Client.Disconnect` | custom_components/sscp_integration/sscp_client.py:358-363 | updates the fields as `Session.Disconnect` says |
| `SscpClient.Client.Reconnect` | custom_components/sscp_integration/sscp_client.py:381-408 | new socket, flags cleared, `connect`, `login`; the result is that of `Session.Reconnect`, and success leaves both flags set |
| `SscpClient.Client.EnsureConnected` | custom_components/sscp_integration/sscp_client.py:376-380 | as `Session.EnsureConnected`: afterwards connected and logged in, or an error |
| `SscpClient.Client.Attempt` | custom_components/sscp_integration/sscp_client.py:149-154 | one pass through the try block with a built frame (sendall, recv, reply check) returns and updates as `Session.TryOnce` says, and reports a broken pipe |
| `SscpClient.Client.Retry` | custom_components/sscp_integration/sscp_client.py:136-160 | ensure_connected, one pass and, on a broken pipe, reconnect and the recursive call, returning and updating exactly as `Session.WithRetry` |
| `SscpClient.Client.ReadVariable` | custom_components/sscp_integration/sscp_client.py:136-160 | read_variable with its broken-pipe retry returns and updates exactly as `Session.ReadVariable` |
| `SscpClient.Client.WriteVariable` | custom_components/sscp_integration/sscp_client.py:163-249 | write_variable with its broken-pipe retry returns and updates exactly as `Session.WriteVariable` |
| `Vlist.FieldOrDecimal` | custom_components/sscp_integration/config_flow.py:103-104 | `int(f) if f else default`: an empty field reads as the default, and a field holding `str(n)` reads as `n` whatever the default |
| `Vlist.ParseFields` | custom_components/sscp_integration/config_flow.py:97-107 | fewer than six fields give nothing. Otherwise the result is a record keyed by a name free of `'$'`, or the ValueError of `int()` |
| `Vlist.ParseLine` | custom_components/sscp_integration/config_flow.py:96-97 | a line is skipped exactly when it splits into fewer than six fields |
| `Vlist.Body` | custom_components/sscp_integration/config_flow.py:95 | `lines[2:]`: empty for a file of two lines or fewer |
| `Vlist.ReadVlist` | custom_components/sscp_integration/config_flow.py:94-110 | the loop over `lines[2:]` that fills the dictionary gives the table and failure flag of `LoadVlist`. The loops at lines 358-367 and 392-402 are the same loop keeping fewer fields |
| `Vlist.Pass` | custom_components/sscp_integration/config_flow.py:96-107 | one pass of the loop body over a line does what `Step` says for what the line parses to: skip, store the record under its name, or stop on the ValueError of `int()` |
| `Vlist.ParsesAt` | custom_components/sscp_integration/config_flow.py:96-97 | the i-th parsed line is the i-th line parsed |
| `Vlist.ParsesAppend` | custom_components/sscp_integration/config_flow.py:95-96 | every line is parsed on its own: parsing two files one after the other is parsing their concatenation |
| `Vlist.RunStopped` | custom_components/sscp_integration/config_flow.py:108-110 | once a parsed line is the ValueError of `int()`, the lines after it change nothing |
| `Vlist.RunSkips` | custom_components/sscp_integration/config_flow.py:96-97 | a line that contributes nothing changes nothing, wherever it stands |
| `Vlist.RunLastWins` | custom_components/sscp_integration/config_flow.py:99 | the record of the last parsed line with a name is the one kept, when no later line stops the loop |
| `Vlist.RunOrigin` | custom_components/sscp_integration/config_flow.py:98-107 | every record of the table was put there by a parsed line carrying it |
| `Vlist.CollectStopped` | custom_components/sscp_integration/config_flow.py:108-110 | once `int()` has raised, the lines after it change nothing |
| `Vlist.HeaderSkipped` | custom_components/sscp_integration/config_flow.py:95 | the two header lines are never read as variables |
| `Vlist.ShortLineSkipped` | custom_components/sscp_integration/config_flow.py:96-97 | a line of fewer than six fields changes nothing, wherever it stands |
| `Vlist.AddsEntry` | custom_components/sscp_integration/config_flow.py:98-107 | a parsed line adds its record under its name |
| `Vlist.LastLineWins` | custom_components/sscp_integration/config_flow.py:99 | when two lines carry the same name, the later line's record is the one kept |
| `Vlist.EntryFromLine` | custom_components/sscp_integration/config_flow.py:95-107 | every record in the table comes from a line of the file that parses to it |
| `Vlist.Defaults` | custom_components/sscp_integration/config_flow.py:103-106 | an empty offset gives 0 and an empty length gives 1. Six fields give parent type family `"none"`, and no more than seven give no history id |
| `Vlist.LineRoundTrip` | custom_components/sscp_integration/config_flow.py:96-107 | a variable written as a `;`-joined line reads back as the same name and record, provided its fields contain no `;`, its name no `$`, and its type and line ends nothing the strips would remove |
| `Entities.Labels` | custom_components/sscp_integration/config_flow.py:240-243 | one label per entity, in list order, each `name (UID: uid)` |
| `Entities.Choices` | custom_components/sscp_integration/config_flow.py:240-245 | the manage step aborts with "no_entities" exactly when the list is empty, and otherwise offers the labels |
| `Entities.FindByLabel` | custom_components/sscp_integration/config_flow.py:290-293 | the lookup returns the first entity whose label matches, or none when no label matches |
| `Entities.OfferedLabelFound` | custom_components/sscp_integration/config_flow.py:320-323 | every offered label finds an entity at or before its own position |
| `Entities.RemoveFirst` | custom_components/sscp_integration/config_flow.py:331 | `list.remove` on a list that holds the entity makes it one shorter |
| `Entities.RemoveFirstMultiset` | custom_components/sscp_integration/config_flow.py:331 | `list.remove` takes out one occurrence of the entity and keeps every other element, counted with multiplicity |
| `Entities.RemoveFirstAt` | custom_components/sscp_integration/config_flow.py:331 | in `before + [x] + after` with no `x` in `before`, `list.remove(x)` leaves `before + after`: the first occurrence goes and the order is kept |
| `Entities.RemoveFirstIndex` | custom_components/sscp_integration/config_flow.py:331 | the same at an index `k`: when no earlier element equals element `k`, that element is removed |
| `Entities.DeleteRemovesFound` | custom_components/sscp_integration/config_flow.py:320-331 | a confirmed delete removes exactly the entity the lookup found, at its index, and no other |
| `Entities.Refreshed` | custom_components/sscp_integration/config_flow.py:371-372 | an entity the file names takes uid, offset, length and type from it, and keeps name and entity type. Any other entity is unchanged |
| `Entities.Reloaded` | custom_components/sscp_integration/config_flow.py:370-372 | the merge refreshes every entity, one for one and in order |
| `Entities.ReloadKeepsShape` | custom_components/sscp_integration/config_flow.py:362-372 | the merge keeps length, order, names and entity types, leaves entities the file does not name unchanged, and gives the others the file's uid |
| `Entities.ReloadIdempotent` | custom_components/sscp_integration/config_flow.py:358-372 | reloading twice from the same file is reloading once |
| `Entities.ReloadFromLine` | custom_components/sscp_integration/config_flow.py:358-372 | what a reload gives an entity comes from a line of the file, below the header, that names it |
| `Entities.OptionsFlow.constructor` | custom_components/sscp_integration/config_flow.py:199-201 | the flow starts with the entry's entity list and nothing selected |
| `Entities.OptionsFlow.Select` | custom_components/sscp_integration/config_flow.py:233-238 | the chosen label is remembered and the list is untouched |
| `Entities.OptionsFlow.Found` | custom_components/sscp_integration/config_flow.py:289-293 | the index found holds an entity whose label is the selected one, and no earlier entity has that label; none is found exactly when nothing is selected or no label matches |
| `Entities.OptionsFlow.EditEntity` | custom_components/sscp_integration/config_flow.py:287-304 | without a match, the flow aborts with "entity_not_found" and the list is unchanged. Otherwise the found entity is replaced by the form's values and nothing else changes |
| `Entities.OptionsFlow.ConfirmDelete` | custom_components/sscp_integration/config_flow.py:317-335 | without a match, the flow aborts. Without confirm, nothing changes. With confirm, exactly the found entity is removed |
| `Entities.OptionsFlow.ReloadFromVlist` | custom_components/sscp_integration/config_flow.py:347-379 | with no file, or a line `int()` refuses, nothing changes. Otherwise the entities are merged in place with the file's table |
| `Entities.OptionsFlow.Refresh` | custom_components/sscp_integration/config_flow.py:369-372 | the merge loop updates, in place, exactly the entities the table names, with the table's uid, offset, length and type, as `Reloaded` says; the picked label is kept |

## Left out

- Sockets, TCP, timeouts and logging are left out. The socket is the scripted `Net` described above. Partial `recv` reads, where a reply arrives in pieces, are not modelled: each exchange yields one reply.
- The MD5 hash of the password (`hashlib.md5`) is not computed. The model takes the 16-byte digest as part of the endpoint, and the user name as its UTF-8 bytes.
- REAL and LREAL (`struct.pack(">f")`, `">d"`) are not converted to or from floats. A float value is carried as its raw 4 or 8 bytes, and reads decode to those bytes. The model gives the error `FloatNotModelled` in three cases: an int or bool written as REAL/LREAL, which Python would pass through `float()`; a float written as an integer type, which Python would truncate with `int()`; and a float written as BOOL (see `Codec.EncodeAs` below).
- Codec.EncodeAs: a float written as BOOL gives `FloatNotModelled`. Python's `1 if value else 0` takes the float's truth value, and number entities hand floats to `write_variable`. Floats are carried as raw bytes, so their truth value is not computed.
- Codec.Upper: `.upper()` is modelled only for the ASCII letters and the dotless ı, the characters whose upper case is a letter of a type name. Python also changes the length for some characters ('ß' becomes 'SS') and upper-cases other letters ('é' becomes 'É'), which the model leaves unchanged. Which type a name selects is unaffected. For such non-ASCII names, the text of the `Unsupported type` error that `Codec.DecodeValue` carries differs from what sscp_client.py:302 would produce.
- `logout` (sscp_client.py:69-76) is not modelled. It builds a frame that is never sent, so the only thing it does is `ensure_connected`.
- The first `reconnect` (sscp_client.py:365-374) is not modelled, because the later definition at line 381 replaces it.
- Python's recursion limit is not modelled. The retry recursion of `read_variable`/`write_variable` has no bound in the code, and the model follows it. A script of unbroken broken pipes with good reconnects makes as many attempts as it has replies.
- Threads and concurrent use of one client are not modelled; the code has no locking.
- The Home Assistant flow plumbing is left out: forms, schemas, `async_update_entry`, `os.listdir` and file opening. The `.vlist` file reaches the model as its list of lines; when no file is configured or it cannot be opened, the model receives `None`.
- `async_step_add_entity`, `async_step_add_entity_from_vlist`'s append of the chosen variable, `async_step_hass_config` and `async_step_manual_input` are not modelled beyond the `.vlist` loop they share. Each just appends a record to the list.
- Dictionary key order and the extra keys a `.vlist`-added entity carries (`project` and the like) are not modelled. An entity holds the six keys of the options flow.
- Unicode digits that Python's `int()` also accepts are not modelled. `int()` is modelled for ASCII digits, an optional sign, surrounding whitespace, underscores between digits and, in base 16, a `0x` prefix.
- `async_step_vlist_select` reads `vlist_data` at config_flow.py:84 before the assignment at line 90 makes it a local name, so submitting that form raises `UnboundLocalError`. That step's plumbing is outside the model.
- The login frame's max-data-size field is the two bytes `28 00` that sscp_client.py:46 writes; a big-endian 0x0028 would be `00 28`.
- After every broken pipe whose reconnect succeeds, `read_variable` and `write_variable` call themselves again, so retries are not limited to one; the model does the same.
