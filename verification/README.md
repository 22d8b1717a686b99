# webtty session model

A Dafny model of the `webtty` package of gotty, a server that shares a
terminal over a websocket. A `WebTTY` session sits between two endpoints. The
*master* is the browser connection, and the *slave* is a local command running
on a pseudo-terminal. The session speaks a small framed protocol: each frame is
one command byte followed by a payload.

The model covers these parts of the session:

- **Construction** (`New`). The defaults are write permission off, no fixed
  size and a 1024-byte buffer. The options are then applied in order.
- **The initial frames** (`sendInitializeMessage`). These are the window
  title, the reconnect interval in decimal (only when positive) and the
  client preferences (only when set). The first write that fails stops the
  sequence, and its error is returned.
- **The slave-to-master path** (`handleSlaveReadEvent`). Each chunk is
  audited in the "send" direction. It is then written to the master as one
  Output frame, in standard base 64.
- **The master-to-slave dispatch** (`handleMasterReadEvent`). The handler
  rejects zero-length frames and audits the payload in the "recive"
  direction. It then dispatches on the type byte:
  - Input is written to the slave when writing is permitted.
  - Ping is answered with Pong.
  - ResizeTerminal resizes the slave, with a fixed size winning over the
    requested one.
  - Anything else is an error.
- **The command audit engine** (`audit`, `filterASCII`). It rebuilds typed
  command lines from keystroke chunks. For each completed command it writes
  one Info record: `msg=` followed by the command, with every `sh-4.3#`
  removed.
- **The control-character table** of `ascii.go`, and the debug rendering
  `asciiToString` that uses it.

Files:

- `common.dfy`: bytes and `Option`.
- `base64.dfy`: the encoding of section 4 of RFC 4648 that Output frames use,
  with its decoder as the partner for a round trip.
- `ascii.dfy`: the control-character table and `asciiToString`.
- `audit.dfy`: the audit engine as a function from state and chunk to state.
- `protocol.dfy`: configuration, options, the initial frames and the two
  handlers, as functions from inputs to the endpoint calls made and the
  outcome.
- `webtty.dfy`: the `WebTTY` class. Its methods update its fields in place as
  the Go methods do, and each is proved equal to the corresponding function.

The endpoints are seen only through the calls the session makes on them. The
class keeps these in the ghost trace `effects`; the audit log is the ghost
sequence `records`. Whether a write fails is an oracle parameter:

- `ok: bool` for the handlers, which write at most once.
- `ok: nat -> bool`, indexed by write number, for the initial frames.

The JSON decoding of a resize payload is a parameter
`parse: seq<byte> -> Option<ResizeArgs>`. The command-code constants are
declared elsewhere in the `webtty` package, not in webtty.go or ascii.go. They are the abstract `Codes`, and the
only assumption about them is that the three cases of the dispatch `switch`
are distinct.

Four behaviours of the source are modelled as written:

- **Backspace (8) does not erase anything.** The buffer is reassigned to its
  own full length, so a BS is dropped without removing the previous byte
  (`Audit.ReceiveWithoutCR`). The source may not intend this, but that is not
  certain. The model keeps the source's behaviour and does not correct it.
- **A CR inside a keystroke chunk is skipped.** Only a CR in first place, or
  a CR as the last byte, has an effect. Two lines pasted as one chunk are
  therefore recorded as one command: "a", CR, "b", CR gives "msg=ab"
  (`Audit.ReceiveChunk`, `Audit.InnerCRJoinsLines`).
- **The receive direction is spelled "recive".** The source uses this
  spelling both where it calls `audit` and where `audit` tests the action, so
  the two agree.
- **DC1..DC4 end in a digit.** Not every mnemonic in the control-character
  table is made of upper-case letters: the third character of DC1..DC4 is a
  digit. `Ascii.EntriesAreMnemonics` and `Ascii.DigitOnlyInDeviceControls`
  state exactly what does hold.

## Model

| member | source | states |
|---|---|---|
| Ascii.KeysAreControlCodes | webtty/ascii.go:4-38 | a code has an entry exactly when it is 0..31 or 127; no printable code has one |
| Ascii.TableSize | webtty/ascii.go:4-38 | the table has exactly 33 entries |
| Ascii.EntriesAreMnemonics | webtty/ascii.go:4-38 | every entry is two upper-case letters, optionally followed by an upper-case letter or a digit |
| Ascii.DigitOnlyInDeviceControls | webtty/ascii.go:22-25 | only the entries of codes 17..20 (DC1..DC4) end in a digit |
| Ascii.TableInjective | webtty/ascii.go:4-38 | no two codes share a mnemonic |
| Ascii.TableEntries | webtty/ascii.go:13-37 | BS, HT, LF and CR are the entries of 8, 9, 10 and 13; ESC is the entry of 27; DEL is the entry of 127 |
| Ascii.RenderByteCases | webtty/webtty.go:326-331 | a control byte renders as its mnemonic between stars; any other byte renders as the character with its code; each is 1 to 5 characters long |
| Ascii.RenderAppend | webtty/webtty.go:323-334 | the rendering of a concatenation is the concatenation of the renderings |
| Ascii.RenderLength | webtty/webtty.go:323-334 | the rendering is at least as long as the chunk and at most five times as long |
| Ascii.RenderPlain | webtty/webtty.go:323-334 | a chunk without control bytes renders as the characters with the same codes |
| Ascii.AsciiToString | webtty/webtty.go:323-334 | the accumulating loop returns the byte-by-byte rendering of the whole chunk |
| Base64.Encode | webtty/webtty.go:160 | the output is 4 * ceil(n/3) symbols long; every symbol is in the standard alphabet or is the pad; pads appear only in the last two places |
| Base64.DecodeEncode | webtty/webtty.go:160 | decoding the encoding of any chunk gives back exactly that chunk |
| Audit.FilterExactly | webtty/webtty.go:302-321 | a chunk is rejected if and only if it is a CR LF ... "# " prompt echo, an "sh" ... "# " partial prompt, a bare CR LF, or a lone CR in the send direction; every other chunk is audited |
| Audit.FilterDrops | webtty/webtty.go:302-321 | the filter drops a CR LF ... "# " prompt echo, an "sh" ... "# " partial prompt, a bare CR LF, and a lone CR only in the send direction; it keeps the empty chunk |
| Audit.DroppedChunkChangesNothing | webtty/webtty.go:239-242 | a chunk the filter drops leaves the buffer, the flag and the records unchanged |
| Audit.OtherActionChangesNothing | webtty/webtty.go:243-294 | an action that is neither "send" nor "recive" changes nothing |
| Audit.SendAppendsAfterTab | webtty/webtty.go:243-247 | in the send direction, after a TAB the whole chunk is appended and the flag is cleared; otherwise nothing changes |
| Audit.RemoveAll | webtty/webtty.go:275 | removing every occurrence of the prompt never makes the text longer |
| Audit.RemoveAllAbsent | webtty/webtty.go:275 | a text without the prompt is left as it is |
| Audit.RemoveAllLeading | webtty/webtty.go:275 | a leading prompt is removed, and removal continues after it |
| Audit.RemoveAllFirst | webtty/webtty.go:275 | the bytes in front of the first occurrence of the prompt are kept unchanged; that occurrence is dropped and removal goes on after it |
| Audit.RemoveAllLength | webtty/webtty.go:275 | the text shrinks by exactly the prompt's length per removal |
| Audit.ReceiveWithoutCR | webtty/webtty.go:263-292 | keystrokes without CR append every byte except TAB and BS, in order; a TAB sets the flag; no record is written |
| Audit.CommandLine | webtty/webtty.go:273-282 | a line ending in CR writes exactly one record, "msg=" and the command without the prompt, and empties the buffer when the command is not empty; otherwise nothing is recorded |
| Audit.ReceiveChunk | webtty/webtty.go:261-293 | for any chunk: one that starts with CR changes nothing, except that a lone CR records a non-empty buffer. Otherwise every byte except TAB, BS and CR is buffered in order, and a CR inside the chunk is skipped. A CR as the last byte then records the command, if it is not empty, without the prompt, and empties the buffer. A TAB anywhere sets the flag |
| Audit.ReceiveRest | webtty/webtty.go:263-292 | the loop from any index whose byte is not a CR in first place gives the same closed form: the induction behind ReceiveChunk |
| Audit.InnerCRJoinsLines | webtty/webtty.go:273-291 | "a", CR, "b", CR records the single command "msg=ab", because the CR inside the chunk is skipped |
| Audit.LeadingCRAbandonsChunk | webtty/webtty.go:283-286 | a chunk that starts with CR changes nothing, unless it is a lone CR that ends a non-empty command |
| Audit.ReceiveBuffersOnlyTyped | webtty/webtty.go:263-292 | the receive loop never buffers CR, TAB or BS; it writes at most one record and keeps the old records as a prefix |
| Audit.AtMostOneRecordPerChunk | webtty/webtty.go:239-295 | a whole chunk, in either direction, writes at most one record and keeps the old ones |
| Audit.ListCommandRecorded | webtty/webtty.go:273-281 | "ls" and CR at an empty buffer record exactly "msg=ls" |
| Protocol.DefaultDeny | webtty/webtty.go:58-75 | write permission is on exactly when some option grants it; columns and rows stay 0 unless an option fixes them |
| Protocol.Decimal | webtty/webtty.go:141 | the reconnect interval is written as at least one ASCII digit, with no leading zero |
| Protocol.DecimalRoundTrip | webtty/webtty.go:141 | reading the decimal text back gives the interval |
| Protocol.InitMessagesContent | webtty/webtty.go:134-156 | one frame for the title, one more if reconnect > 0, one more if preferences are set; the title comes first, the reconnect frame (its decimal value is the interval) second, and the preferences last |
| Protocol.WriteFromStops | webtty/webtty.go:134-156 | the frames are written in order; the result is Done exactly when every write succeeds, and then all are written; otherwise writing stops at the first failing write with that frame's error |
| Protocol.SendInitializeStops | webtty/webtty.go:134-156 | the initial frames are written in order; Done exactly when every write succeeds; otherwise every write before the last one made succeeded, and the last frame written is the first failing one, with its error |
| Protocol.InitTitleFails | webtty/webtty.go:135-138 | a failed title write stops everything, with the window-title error |
| Protocol.InitReconnectFails | webtty/webtty.go:140-146 | a failed reconnect write comes after the title, and nothing follows it |
| Protocol.InitHeadWritten | webtty/webtty.go:134-147 | after the title and the reconnect frame succeed, only the preferences frame is left |
| Protocol.InitPreferencesFails | webtty/webtty.go:148-153 | a failed preferences write is the last of the frames, with the preferences error |
| Protocol.InitSucceeds | webtty/webtty.go:134-156 | when every write succeeds, exactly the title, the reconnect and the preferences frames are written (each only when applicable) and the result is Done |
| Protocol.OutputFrame | webtty/webtty.go:160-161 | the Output frame is the Output code followed by 4 * ceil(n/3) base-64 bytes that decode to the chunk |
| Protocol.HandleSlave | webtty/webtty.go:158-167 | exactly one master write, the Output frame that carries the chunk; it fails exactly when the write fails, with the output error |
| Protocol.HandleMaster | webtty/webtty.go:181-237 | at most one endpoint call. A zero-length frame or an unknown type fails with no call. Input reaches the slave exactly when writing is permitted and there is a payload; a failed slave write gives the slave-write error. Ping is answered by exactly one Pong; a failed Pong write gives the Pong error. Resize is ignored when both dimensions are fixed; with no payload it fails with the empty-payload error, with an unparseable payload with the malformed error, and otherwise it resizes to the effective size |
| Session.WebTTY.New | webtty/webtty.go:58-75 | the fields are the defaults with every option applied in order; the audit state and the trace start empty |
| Session.WebTTY.Apply | webtty/webtty.go:70-72 | an option assigns its one field and changes nothing else |
| Session.WebTTY.MasterWriteFrame | webtty/webtty.go:169-179 | one write to the master is added to the trace; it reports failure exactly when the write fails |
| Session.WebTTY.SendInitializeMessage | webtty/webtty.go:134-156 | the writes made and the error returned are those of Protocol.SendInitialize for the session's settings |
| Session.WebTTY.HandleSlaveReadEvent | webtty/webtty.go:158-167 | the audit state advances by the send-direction audit of the chunk; the settings do not change; the calls and the outcome are those of Protocol.HandleSlave |
| Session.WebTTY.HandleMasterReadEvent | webtty/webtty.go:181-237 | the audit state advances by the "recive" audit of the payload (not at all for a zero-length frame); the settings do not change; the calls and the outcome are those of Protocol.HandleMaster |
| Session.WebTTY.RunAudit | webtty/webtty.go:239-295 | the in-place loop, with its early return, leaves the buffer, the flag and the records as Audit.AuditChunk gives them |

## Left out

- `Run` is left out: its two pump goroutines, the `errs` channel, the `select` on the context and the read buffers of `bufferSize` bytes. The model covers what one call to each handler does, not how the calls interleave.
- `writeMutex` is left out. It serialises concurrent writes to the master, and the model has no concurrency.
- The `init` function is left out. It sets up logging from `GOTTY_LOG_LEVEL`.
- The Debug-level log lines are left out, and so are the `time` and `user` fields of the Info record. A record is modelled as its message, "msg=" followed by the command.
- `asciiToString` is modelled on its own. Its only callers in the source are Debug log lines, which are left out.
- The master and the slave are modelled as the calls made on them. The number of bytes a write reports is ignored, as the source ignores it. A short write is therefore not modelled.
- The error of `slave.ResizeTerminal` is ignored, as the source ignores it.
- The JSON decoding of a resize payload, including the truncation of its two float64 fields by `int(...)`, is a parameter. Protocol.HandleMaster states what it does with whatever that decoding returns.
- Errors are modelled as the kind of failure. The wrapped Go error text and the underlying write error are not modelled.
- The option functions are declared elsewhere in the `webtty` package, not in webtty.go or ascii.go. Each is modelled as assigning the one field its name refers to.
- `json.Marshal` of the reconnect interval is modelled as its decimal text. That is what it produces for a positive int.
- The command-code values are declared elsewhere in the `webtty` package, not in webtty.go or ascii.go. They are modelled abstractly.
- Go strings are modelled as byte sequences, because records and `strings.Replace` work on bytes. `asciiToString` converts each byte to the character with that code.
- The base-64 decoder exists only to state the round trip of the encoder. The session never decodes anything.
