# HLRobotController: the WebSocket command and status core

HLRobotController is firmware for a NodeMCU ESP8266 board that drives four DC motors and eight servos. A web
page talks to it over WebSockets. This project models the part of `src/main.cpp` that turns
client messages into actuator settings and sends the status table back:

- **The actuator registry.** `MOTOR_ENABLE[4]`, `MOTOR_SET[5]`, `SERVO_ENABLE[8]` and
  `SERVO_SET[8]` are arrays of the class `Firmware.Registry`. Its value is the datatype
  `Actuators.RegistryState`.
  - `SetMotor` rejects an index outside 0..3. Otherwise it clamps the value to [-1, 1]
    (first against -1, then against +1) and stores it.
- **`onMessage`.** The text is cut at its first NUL (`data.c_str()`) and split by
  `splitStringByWhitespace` into whitespace-free tokens, the C `isspace` set.
  - No tokens, or the first token `none`, is the "empty command".
  - `enable <ch> <x>` with exactly three tokens sets the channel's flag to `atoi(x) != 0`.
  - `incr <ch> <d>` with exactly three tokens adds `atof(d)`. A motor goes through
    `SetMotor`, so it is clamped; a servo is not clamped.
  - The channel index is `atoi` of the text after the channel letter. `M` addresses a
    motor and `S` a servo. An index out of range, another letter, another keyword or
    another token count changes nothing.
- **`getStatusHTML`.** It builds a fixed header, then one row per motor (M0..M3), then one
  per servo (S0..S7). Each row holds three cells: the name, `Y`/`N` and the setting.
  `</table>` closes the table.
- **The status message.** `escapeJsonString` escapes `"`, `\` and newline. The result is
  wrapped in `{"type": "status", "content": "..."}`.
- **`handleWebSockets`.** One call does four things:
  - It accepts at most one pending connection, and only an available one.
  - It polls every client, which runs its messages through `onMessage`.
  - It drops the clients that are no longer available, keeping the order of the rest
    (erase/remove_if).
  - When more than 1000 ms have passed since `last_send`, in 32-bit unsigned arithmetic,
    it sends the status message to every client and sets `last_send` from the clock.

**How the model is built.** Pure functions in modules define what each operation must do.
The imperative code is modelled as two classes, `Firmware.Registry` and
`Firmware.WebSocketHub`, with arrays, fields and loops. Each of their methods is proved to
produce exactly the state or text given by those functions. The lemmas beside the
functions state what the source promises:

- the clamp and range checks;
- what each command does and that malformed ones do nothing;
- that the tokenizer loses and invents nothing;
- that escaping is undone by a JSON reader;
- that the table reads back as the twelve channels in order;
- that only live clients are sent to, and that the 1000 ms test survives a wrap of the
  millisecond counter.

Two outside inputs are parameters. `atof` (`string -> real`) and the `String(float)`
rendering of a setting (`real -> string`) are library routines whose text format is not
modelled. Where a property needs something of them, the lemma says so in its `requires`:
for example, that the rendered number has no `<` in it.

Modules: `Wrappers`, `CText` (`isspace`, `atoi`, `c_str`), `Tokenizer`, `Actuators`,
`Commands`, `JsonEscape`, `Status`, `Connections` and `Firmware`.

## Model

| member | source | states |
|---|---|---|
| `CText.CString` | src/main.cpp:277 | what C code sees of a string through `c_str()` is a NUL-free prefix of it, and it stops only at a NUL |
| `CText.CStringWithoutNul` | src/main.cpp:277 | a text without NUL reaches the tokenizer whole |
| `CText.Atoi` | src/main.cpp:284-285 | definition of C `atoi` (whitespace, optional sign, leading digits); its properties are the rows `CText.AtoiSkipsSpace` to `CText.AtoiNoNumber` |
| `CText.AtoiSkipsSpace` | src/main.cpp:284-285 | whitespace in front of a number does not change what `atoi` reads |
| `CText.AtoiDigits` | src/main.cpp:284-285 | a run of digits followed by a non-digit reads as the value of the digits |
| `CText.AtoiSigned` | src/main.cpp:285 | a leading `-` negates and a leading `+` keeps the value of the digits after it |
| `CText.AtoiDecimal` | src/main.cpp:284 | the decimal rendering of n, and of -n, is read back as n and -n whatever non-digit text follows |
| `CText.AtoiNoNumber` | src/main.cpp:284-285 | text that starts with neither whitespace, a sign nor a digit reads as 0 |
| `Tokenizer.Tokens` | src/main.cpp:257-265 | every token is non-empty and free of whitespace |
| `Tokenizer.SplitByWhitespace` | src/main.cpp:257-265 | the `iss >> token` loop returns exactly the token list of its input |
| `Tokenizer.TokensConcat` | src/main.cpp:257-265 | the tokens laid end to end are the input with its whitespace deleted: nothing lost, added or reordered |
| `Tokenizer.TokensEmpty` | src/main.cpp:257-265 | there are no tokens exactly when the input is all whitespace |
| `Tokenizer.TokensJoin` | src/main.cpp:257-265 | whitespace-free words written with single spaces between them split back into the same words |
| `Actuators.Initial` | src/main.cpp:84-90 | at power-up every channel is disabled and at 0, and the motor settings are within [-1, 1] |
| `Actuators.Clamp` | src/main.cpp:244-245 | the result lies in [-1, 1] and equals the input when the input already does |
| `Actuators.ClampNearest` | src/main.cpp:244-245 | the clamped value is the point of [-1, 1] nearest to the requested one; below -1 gives -1, above 1 gives 1 |
| `Actuators.SetMotor` | src/main.cpp:236-250 | an index outside 0..3 changes nothing; otherwise only that motor's setting changes, to the clamped value, and the [-1, 1] invariant holds |
| `Commands.ChannelIndex` | src/main.cpp:284 | definition: `atoi` of the channel token after its letter; its properties are the rows `Commands.BareLetterIsChannelZero`, `Commands.NumberedChannel` and `Commands.SingleDigitChannel` |
| `Commands.Parse` | src/main.cpp:277-296 | definition of the dispatch on the first token and the token count; its properties are the rows `Commands.ParseEnable`, `Commands.ParseIncr`, `Commands.BlankLineIsNoOp`, `Commands.MissingArgumentIsNoOp` and `Commands.OnlyWellFormedCommandsChange` |
| `Commands.Execute` | src/main.cpp:283-307 | executing any parsed command keeps every motor setting within [-1, 1], over reals (a NaN setting is not modelled: see `Actuators.Clamp` under Left out) |
| `Commands.OnMessage` | src/main.cpp:272-308 | handling any text, however malformed, keeps every motor setting within [-1, 1], over reals (a NaN from `incr M0 nan` is not modelled: see `Actuators.Clamp` under Left out) |
| `Commands.ParseEnable` | src/main.cpp:283-285 | the tokens `enable`, ch, x parse as: letter ch[0], index `atoi` of the rest of ch, flag `atoi(x) != 0` |
| `Commands.ParseIncr` | src/main.cpp:294-296 | the tokens `incr`, ch, d parse as: letter ch[0], index `atoi` of the rest of ch, delta `atof(d)` |
| `Commands.EnableChannel` | src/main.cpp:283-291 | `enable` on an existing channel sets that one flag to `atoi(x) != 0` and changes nothing else |
| `Commands.IncrMotor` | src/main.cpp:294-298 | `incr M<i> d` sets motor i to clamp(old + d) and changes nothing else |
| `Commands.IncrServo` | src/main.cpp:300-302 | `incr S<i> d` sets servo i to old + d, unclamped, and changes nothing else |
| `Commands.OnlyWellFormedCommandsChange` | src/main.cpp:277-307 | a message changes the registry only if it has three tokens, the keyword `enable` or `incr`, and an existing channel |
| `Commands.BlankLineIsNoOp` | src/main.cpp:277-280 | empty or all-whitespace text (up to the first NUL) parses as the empty command, not as a bad one, and changes nothing |
| `Commands.MissingArgumentIsNoOp` | src/main.cpp:294-307 | `incr M1` with its argument missing parses as a bad command (the token count is checked before the channel) and changes nothing |
| `Commands.BareLetterIsChannelZero` | src/main.cpp:284 | a channel token with no number after its letter (`M`, `Mx`) addresses channel 0, as `atoi` of the terminating NUL gives 0 |
| `Commands.NumberedChannel` | src/main.cpp:284 | a decimal number after the letter is the index, and text after the number is ignored (`M2x` is M2) |
| `Commands.SingleDigitChannel` | src/main.cpp:295 | a letter followed by one digit addresses the channel of that digit |
| `Commands.LineTokens` | src/main.cpp:277 | a NUL-free line of words separated by single spaces is tokenised into those words |
| `Commands.OnMessages` | src/main.cpp:329-331 | definition: the messages of a poll handled one after the other; its properties are the rows `Commands.OnMessagesAppend` and `Commands.OnMessagesConcat` |
| `Commands.OnMessagesAppend` | src/main.cpp:329-331 | messages take effect one after the other, in arrival order |
| `Commands.OnMessagesConcat` | src/main.cpp:329-331 | handling one batch of messages and then another equals handling the two batches as one |
| `Commands.IncrM1Text` | src/main.cpp:277 | the text `incr M1 0.5` splits into the tokens `incr`, `M1`, `0.5`, so the first message `Commands.ClampedIncrements` requires exists |
| `Commands.ClampedIncrements` | src/main.cpp:298 | `incr M1 0.5` then `incr M1 0.6` from 0 leaves motor 1 at 1.0, not 1.1 (`Commands.IncrM1Text` shows a text meeting the first requires) |
| `Commands.EnableThenDisable` | src/main.cpp:289-290 | `enable S3 1` then `enable S3 0` leaves servo 3 disabled and every setting untouched |
| `Commands.StartupSequence` | src/main.cpp:272-308 | from power-up, `enable M0 1`, `incr M0 0.3`, `incr S2 -0.2` leave exactly M0 enabled at 0.3 and S2 at -0.2 |
| `JsonEscape.Escape` | src/main.cpp:216-228 | definition of the escaping character by character; its properties are the rows `JsonEscape.EscapeLength` to `JsonEscape.ReadEscapedRejectsControl` |
| `JsonEscape.EscapeJsonString` | src/main.cpp:216-228 | the character loop returns exactly the escaped text of its input |
| `JsonEscape.EscapeAppend` | src/main.cpp:218-225 | each input character adds its own escape to the end of the output |
| `JsonEscape.EscapeLength` | src/main.cpp:216-228 | the output is longer than the input by the number of quotes, backslashes and newlines |
| `JsonEscape.EscapeIdentity` | src/main.cpp:216-228 | the output equals the input exactly when the input has no quote, backslash or newline |
| `JsonEscape.EscapeNoNewline` | src/main.cpp:222 | the output never holds a raw newline |
| `JsonEscape.EscapeQuotesEscaped` | src/main.cpp:220 | every double quote in the output has a backslash just before it, so the output never closes a JSON string early |
| `JsonEscape.UnescapeEscape` | src/main.cpp:216-228 | decoding the three escape pairs recovers the input exactly |
| `JsonEscape.EscapeUnescape` | src/main.cpp:216-228 | every text the decoder accepts is the escape of what it decodes to |
| `JsonEscape.ReadEscaped` | src/main.cpp:353 | between quotes, the escaped text is read by an RFC 8259 string reader as exactly the input, ending at the closing quote, when the input has no control character other than newline |
| `JsonEscape.ReadEscapedRejectsControl` | src/main.cpp:216-228 | an input with another control character (tab, CR, ...) yields a string an RFC 8259 reader rejects |
| `Status.Snapshot` | src/main.cpp:190-206 | 12 rows: motors 0..3 and then servos 0..7, each with its name from `types[]`, its flag and its setting |
| `Status.SnapshotNames` | src/main.cpp:190 | the row names are M0..M3, S0..S7 in that order |
| `Status.SnapshotOrder` | src/main.cpp:192-206 | whatever messages arrive, the table still lists M0..M3, S0..S7 in that order |
| `Status.YN` | src/main.cpp:195 | the flag cell is `Y` exactly when the channel is enabled and `N` exactly when it is not |
| `Status.RowsHtmlAppend` | src/main.cpp:192-206 | appending a row to the table appends exactly that row's HTML |
| `Status.StatusHtml` | src/main.cpp:180-211 | definition: header, the rows of `Status.Snapshot`, `</table>`; its properties are the rows `Status.StatusTableRead` and `Status.StatusHtmlNoControl` |
| `Status.StatusTableRead` | src/main.cpp:180-211 | reading the page back (header, `<tr>` rows of three `<td>` cells, `</table>`) gives the 12 channels' name, flag and setting, in order, when a rendered number has no `<` |
| `Status.StatusHtmlNoControl` | src/main.cpp:180-211 | the status HTML has no control character besides newline when the rendered numbers have none |
| `Status.Envelope` | src/main.cpp:353 | definition of the JSON envelope around escaped content; its property is the row `Status.EnvelopeRead` |
| `Status.StatusMessage` | src/main.cpp:352-353 | definition: the envelope around the status HTML; its property is the row `Status.StatusMessageRead` |
| `Status.EnvelopeRead` | src/main.cpp:353 | the envelope's content reads back exactly when the content has no control character besides newline, and is rejected otherwise |
| `Status.StatusMessageRead` | src/main.cpp:347-358 | the status message is a valid envelope, and its content reads back as the 12 channels in order |
| `Connections.Accepted` | src/main.cpp:318-326 | definition of the accept step; its property is the row `Connections.AcceptAppendsOnlyAvailable` |
| `Connections.AcceptAppendsOnlyAvailable` | src/main.cpp:318-326 | accepting keeps every client in place and adds at most one, at the end, exactly when it is available |
| `Connections.Polled` | src/main.cpp:329-331 | polling keeps every client and its order; a client stays available only if its connection is not closed |
| `Connections.Inbound` | src/main.cpp:329-331 | definition: the clients' pending lines in list order; its property is the row `Connections.InboundConcat` |
| `Connections.InboundConcat` | src/main.cpp:329-331 | the messages of a list of clients are those of its front part followed by those of its back part |
| `Connections.Reaped` | src/main.cpp:334-345 | definition of erase/remove_if as a stable filter on availability; its properties are the rows `Connections.ReapedMembers` to `Connections.ReapMiddle` |
| `Connections.ReapedMembers` | src/main.cpp:334-345 | a client survives the clean-up exactly when it was in the list and is available |
| `Connections.ReapedCount` | src/main.cpp:334-345 | each available client keeps its number of occurrences and each unavailable one drops to zero |
| `Connections.ReapedInOrder` | src/main.cpp:334-345 | the survivors keep their relative order |
| `Connections.ReapedIdempotent` | src/main.cpp:334-345 | cleaning up a second time removes nothing more |
| `Connections.ReapMiddle` | src/main.cpp:334-345 | a dead client between two live ones is removed and the live ones close up |
| `Connections.ElapsedAcrossWrap` | src/main.cpp:349 | the unsigned difference measures the true time since the last send across a counter wrap, for any gap under 2^32 ms, so the status is due exactly when the gap exceeds 1000 ms |
| `Connections.WrapExample` | src/main.cpp:349 | 600 ms before the wrap to 500 ms after it counts as 1100 ms and the status is due |
| `Connections.Broadcast` | src/main.cpp:354-356 | one message per client, to each client in list order, each carrying the payload |
| `Connections.Cadence` | src/main.cpp:347-358 | definition of the periodic send; its property is the row `Connections.CadenceSendsWhenDue` |
| `Connections.Step` | src/main.cpp:316-358 | definition of one pass: accept, poll, reap, send; its property is the row `Connections.StepSendsOnlyToLiveClients` |
| `Connections.CadenceSendsWhenDue` | src/main.cpp:347-358 | when due, every client gets the message once and in order and `last_send` moves; when not due, nothing changes |
| `Connections.StepSendsOnlyToLiveClients` | src/main.cpp:316-358 | after a pass every listed client is available, and every status message of that pass went to a client still listed |
| `Firmware.Registry.constructor` | src/main.cpp:84-90 | the arrays start zeroed: the registry's value is the power-up state |
| `Firmware.Registry.SetMotor` | src/main.cpp:236-250 | writes only `MOTOR_SET`, and the new registry is the one `Actuators.SetMotor` gives |
| `Firmware.Registry.OnMessage` | src/main.cpp:272-308 | the new registry is what `Commands.OnMessage` gives for the text |
| `Firmware.Registry.EnableBranch` | src/main.cpp:286-291 | the two letter tests of the `enable` branch write only the enable arrays, as `Execute` says |
| `Firmware.Registry.IncrBranch` | src/main.cpp:297-302 | the two letter tests of the `incr` branch write only the setting arrays, as `Execute` says |
| `Firmware.Registry.GetStatusHtml` | src/main.cpp:180-211 | the two row loops build exactly the status HTML of the current registry |
| `Firmware.Registry.StatusMessageText` | src/main.cpp:352-353 | the message is the envelope around the escaped status HTML of the current registry |
| `Firmware.WebSocketHub.constructor` | src/main.cpp:348 | no clients, nothing sent, and `last_send` is the clock reading of the first call |
| `Firmware.WebSocketHub.Accept` | src/main.cpp:318-326 | the client list becomes the accepted list; nothing else changes |
| `Firmware.WebSocketHub.Deliver` | src/main.cpp:330 | one client's messages are handled in order |
| `Firmware.WebSocketHub.PollAll` | src/main.cpp:329-331 | the registry takes every client's messages in list order, and each client's availability follows its connection |
| `Firmware.WebSocketHub.DeliverAll` | src/main.cpp:329-331 | the loop over the client list runs every client's lines through `onMessage`, in list order |
| `Firmware.WebSocketHub.Reap` | src/main.cpp:334-345 | the in-place erase/remove_if leaves exactly the available clients, in order |
| `Firmware.WebSocketHub.SendToAll` | src/main.cpp:354-356 | the send loop appends one message per client, in list order |
| `Firmware.WebSocketHub.SendStatus` | src/main.cpp:347-358 | the periodic send behaves as the cadence says, with the status message of the current registry |
| `Firmware.WebSocketHub.HandleWebSockets` | src/main.cpp:316-359 | one call runs the accepted clients' messages, then leaves the client list, sent messages and `last_send` as the pure `Step` says, with the status taken after the commands |

## Left out

- WiFi, OTA updates, NTP, the HTTP server and the home page it serves are not part of this model.
- Serial logging, including the "Bad Motor number" and "Bad command" messages, is not modelled.
- Actuators.Clamp: setpoints are reals, not 32-bit floats. Float rounding is not modelled, and neither is a NaN from `atof("nan")`, which would pass both comparisons of `SetMotor` unclamped.
- `atoi` reads into an unbounded integer. Its overflow, undefined in C, is not modelled.
- `atof` and `String(float)` are function parameters. Their number formats are not modelled, so no property depends on the digits of a rendered setting.
- The WebSocket library is not part of this model. Each client has a number and an availability flag. Closed connections arrive as a set of numbers. Each client's pending messages arrive as a map entry. The message callback's capture of `&client` (a reference to a local that is moved into the vector) is not modelled.
- Clients are told apart by a number, and the pending lines and closed connections are keyed by it. Nothing requires two listed clients to have different numbers; two with the same number would share their lines and close together, which separate client objects never do.
- `millis()` is read twice per call, once for the test and once to reset `last_send`. It is modelled as two clock parameters.
- The header of `getStatusHTML` is one raw string literal in the source. The model builds the same characters line by line: newline, indentation and tag.
- The JSON string reader used to state the round trip decodes the short escapes of RFC 8259 section 7 but not `\uXXXX`. The escaper never produces `\u`.
- Pin setup, PWM output, motor drivers and the main loop's timing are not part of this model.
