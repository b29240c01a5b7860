# azureiot_device agent, modelled in Dafny

The agent is a small Node.js program for a Raspberry Pi. At start-up it
opens an Azure IoT Hub session over MQTT. It reads `/proc/cpuinfo` and
reports three host facts as the device twin's reported property
`deviceDetails`, then closes the session. After that it loops forever:

- open a session;
- run the sensor script;
- send a telemetry message `{ messageTimestamp, ...sensors }` when the
  reading is truthy;
- close the session;
- sleep five minutes.

The model has three parts, all in `app.js`:

- **The cpuinfo parser** (`getSystemInfo`), in modules `Text` and `CpuInfo`:
  - `Text` gives the JavaScript string primitives the parser uses, with
    their ECMAScript semantics: `indexOf`, `split(/\r\n|\n/)`,
    `split(':')` and `trim`.
  - `CpuInfo` gives the line-by-line walk that fills the `sysinfo` object
    (`processorType`, `platform`, `processorModel`).
  - `CpuInfo.GetSystemInfoMeaning` relates the walk to an independent
    description of the result: the last line for each label. It also says
    exactly when the walk throws.
  - `CpuInfoExamples` holds lemmas about whole files of a given shape.
- **The telemetry body** (`Telemetry`):
  - a JSON value as `JSON.parse` can produce it;
  - JavaScript truthiness;
  - the object spread, including the index-named properties that spreading
    a string or an array produces.
- **The control flow** of `runApp` and `reportDeviceDetails` (`Agent`):
  - It is a state machine over the points where the program waits on
    something outside itself.
  - At each point the environment supplies the outcome of the SDK call,
    the file read, the sensor script or the timer as an `Input`.
  - A step appends what the program visibly did to a trace: session
    opened or closed, details reported, message sent, sleep, exit.
  - The session invariant `Agent.Inv` holds for every run from process
    start. At most one session is open at any time, every close comes
    after an open, and telemetry is sent only inside a session.

Three behaviours of the code are easy to misread:

- When several lines carry the same label, the LAST one wins. Each line
  overwrites the field.
- The value is the text between the first and the second colon, not
  everything after the first colon.
- A start-up open failure does not end the process. `reportDeviceDetails`
  returns normally, nothing is reported, and the loop starts.

## Model

| member | source | states |
|---|---|---|
| Text.IndexOf | app.js:148 | `line.indexOf(pat)` is the first index where `pat` occurs, and -1 exactly when it does not occur; `>= 0` therefore means "the line contains the text" |
| Text.SplitLines | app.js:144 | splitting at every "\r\n" or "\n" yields at least one line and no line contains a line feed (a lone carriage return stays inside its line) |
| Text.SplitLinesJoin | app.js:144 | the lines together with the separators actually matched ("\n" or "\r\n") rebuild the file: splitting loses nothing |
| Text.JoinLinesSplit | app.js:144 | lines without line feeds, joined with "\n" or "\r\n" (never "\n" after a line ending in "\r"), split back into exactly those lines |
| Text.SplitOn | app.js:149 | `line.split(':')` yields no piece containing a colon, and a single piece exactly when the line has no colon |
| Text.SplitOnJoin | app.js:149 | joining the pieces of `split(':')` with ':' gives the line back |
| Text.SplitOnFirst | app.js:149 | the first piece is the text before the first colon and the remaining pieces are those of the text after it |
| Text.Trim | app.js:150 | `trim()` returns a slice of its argument with only white space removed at both ends, and the result neither starts nor ends with white space |
| CpuInfo.Assign | app.js:150 | assigning one property sets it and leaves the other two unchanged |
| CpuInfo.Classify | app.js:148-159 | a line takes the "model name" branch exactly when it contains "model name"; "Model" only when it does not; "Hardware" only when it contains neither; and no branch exactly when it contains none of the three |
| CpuInfo.FieldValue | app.js:149-150 | `segs[1].trim()` is defined exactly when the line has a colon, and is then the trimmed text between the first colon and the next colon or the end of the line |
| CpuInfo.SegmentBetweenColons | app.js:149 | the second piece of `split(':')` is the text strictly between the first and the second colon |
| CpuInfo.ColonBoundsUnique | app.js:149 | the first colon and the colon after it are determined by the line |
| CpuInfo.ApplyLines | app.js:147-161 | the `forEach` walk throws only at one of its lines that takes a branch and has no colon, and a property once assigned is never removed |
| CpuInfo.GetSystemInfo | app.js:141-163 | `getSystemInfo` throws only at a line of the file that takes a branch and has no colon |
| CpuInfo.ApplyLine | app.js:147-161 | one callback run: a line with no label leaves the object unchanged; a labelled line without a colon throws; otherwise the labelled property gets the trimmed segment |
| CpuInfo.ApplyLinesErrors | app.js:147-161 | the `forEach` throws exactly when some labelled line has no colon, and it throws at the first such line and stops there |
| CpuInfo.ApplyLinesFields | app.js:147-161 | a walk that does not throw leaves in each property the value of the last line with its label, or the starting value when no line has it |
| CpuInfo.LastValueFront | app.js:147-161 | the last match seen from the front: a later line with the same label hides an earlier one |
| CpuInfo.ApplyLinesMeaning | app.js:147-161 | the error and the field facts together, for a walk from any starting object |
| CpuInfo.GetSystemInfoMeaning | app.js:141-163 | `getSystemInfo` throws exactly when a labelled line lacks a colon, and it throws at the first such line; otherwise each property holds the last matching line's value, and a property with no matching line is absent |
| CpuInfo.ModelNameFirst | app.js:148-151 | a line containing "model name" sets only the processor type, even when it also contains "Model" or "Hardware" |
| CpuInfo.ModelBeforeHardware | app.js:152-155 | a line containing "Model" and "Hardware" but not "model name" sets only the platform |
| CpuInfoExamples.ThreeLabels | app.js:141-163 | a file of one "model name", one "Model" and one "Hardware" line, separated by "\n" or by "\r\n", yields all three trimmed values (the values carry no colon or edge white space, and no later line names an earlier label) |
| CpuInfoExamples.LaterLineWins | app.js:152-155 | of two "Model" lines the second one's value is kept |
| CpuInfoExamples.SecondColonLine | app.js:153-154 | the line `Model\t: y:rest` stores `y` and drops the text after the second colon, when `y` carries no colon, line feed or edge white space and neither `y` nor `rest` contains "model name" |
| CpuInfoExamples.SecondColonDropsRest | app.js:153-154 | a file made of that one line parses to an object with only the platform set, to `y`, under the same conditions and with no line feed in `rest` |
| CpuInfoExamples.MissingColonThrows | app.js:148-150 | a one-line file whose "model name" line has no colon makes `getSystemInfo` throw at that line |
| CpuInfoExamples.EmptyFile | app.js:142-144 | an empty file yields the empty object `{}` |
| CpuInfoExamples.LoneCarriageReturn | app.js:144 | a carriage return without a line feed does not split a line |
| CpuInfoExamples.ProcessorTypeLine | app.js:148-150 | `model name\t: x` sets only the processor type, to `x`, when `x` carries no colon, line feed or edge white space |
| CpuInfoExamples.PlatformLine | app.js:152-154 | `Model\t: y` sets only the platform, to `y`, when `y` carries no colon, line feed or edge white space and does not contain "model name" |
| CpuInfoExamples.ProcessorModelLine | app.js:156-158 | `Hardware\t: z` sets only the processor model, to `z`, when `z` carries no colon, line feed or edge white space and contains neither "model name" nor "Model" |
| Telemetry.Truthy | app.js:47 | `if (sensors)` fails for exactly the falsy values `JSON.parse` can produce: null, false, 0 and the empty string; every array and object passes |
| Telemetry.IndexKey | app.js:50 | the property name of an index is a non-empty string of decimal digits, one digit exactly for indices below ten |
| Telemetry.IndexKeyValue | app.js:50 | the property name of an index is its decimal numeral: it denotes the index, most significant digit first, and starts with "0" only for index 0 |
| Telemetry.IndexKeyInjective | app.js:50 | different indices spread to different property names |
| Telemetry.IndexedEntries | app.js:50 | spreading an array-like value gives exactly the index names as keys, each naming its element |
| Telemetry.OwnEntries | app.js:50 | `...sensors` copies an object's own fields, an array's elements and a string's characters under their index names, and nothing for null, booleans and numbers |
| Telemetry.Body | app.js:48-51 | the body has every spread property with its value plus `messageTimestamp`, which keeps the clock value only when the reading has no property of that name |
| Telemetry.TimestampKept | app.js:48-51 | a reading without `messageTimestamp` leaves the clock value in the body |
| Telemetry.TimestampOverridden | app.js:48-51 | a reading object with `messageTimestamp` overrides the clock value, and the body is then exactly the reading |
| Telemetry.TwoReadings | app.js:47-51 | a temperature and pressure reading gives a body of exactly the timestamp and the two readings |
| Telemetry.StringSpread | app.js:48-51 | spreading a string adds one index-named property per character and never touches the timestamp |
| Agent.SysInfoOutcome | app.js:117 | `await getSystemInfo()` either resolves or rejects; it resolves exactly when every line of the file that takes a branch has a colon, and then each resolved property holds the value of the last line with its label, or is absent when no line has it |
| Agent.Step | app.js:11-137 | every step runs the program from one waiting point to the next and only appends to the trace, at most two events |
| Agent.RunExtends | app.js:11-137 | a run only appends to the trace: nothing done is undone or reordered |
| Agent.InvAfterEvent | app.js:21-77 | an event keeps the session invariant when it moves the open-session count, within 0 to 1, to the number of sessions the next waiting point holds, when it is `Exit` exactly if the next point is the exited state, and when it is a send only while a session is open |
| Agent.StepInv | app.js:11-137 | every step from a machine satisfying the session invariant leads to one that satisfies it |
| Agent.RunInv | app.js:11-137 | every run from a machine satisfying the session invariant ends in one that satisfies it |
| Agent.SessionsNeverOverlap | app.js:11-137 | in every run from process start at most one session is open at any time, closes follow opens, telemetry is sent only while a session is open, and no session is open at the top of the loop or while sleeping |
| Agent.HaltedIsFinal | app.js:18 | after exit(), a return or a rejection the program accepts no further outcome |
| Agent.ExitCauses | app.js:12-19 | exit() is reached exactly when client creation, `getTwin` or `getSystemInfo` throws during start-up; no loop failure reaches it |
| Agent.LoopEndCauses | app.js:21-34 | the loop ends by returning exactly when its open fails, and by rejecting exactly when client creation throws; read and send failures never end it |
| Agent.SendCause | app.js:47-65 | a step sends telemetry exactly when a truthy sensor reading arrives, and what it sends is the `{ messageTimestamp, ...sensors }` body |
| Agent.UpdateErrorIgnored | app.js:124-134 | an update error changes nothing: start-up closes the session either way |
| Agent.SendErrorIgnored | app.js:58-76 | a send error changes nothing: the cycle closes and sleeps either way |
| Agent.ReadErrorIsNoReading | app.js:36-47 | a failed sensor read behaves like a null reading: no message, then close and sleep |
| Agent.RunAppend | app.js:21-77 | running two sequences of outcomes one after another is running them together |
| Agent.OpenedCycle | app.js:21-77 | a loop iteration whose open succeeds opens one session, sends exactly when the reading is truthy, closes once whatever the read or send outcome, sleeps 300000 ms, and is back at the top of the loop |
| Agent.CycleWithReading | app.js:21-77 | an iteration with a truthy reading produces open, send of its body, close, sleep of 300000 ms |
| Agent.CycleWithoutReading | app.js:36-77 | an iteration with a failed or falsy reading produces open, close, sleep of 300000 ms |
| Agent.FailedOpenEndsLoop | app.js:27-34 | an iteration whose open fails returns from `runApp` with no session opened and nothing closed, and nothing can follow |
| Agent.StartupReports | app.js:100-137 | a start-up that opens its session and parses the file reports exactly the parsed details, closes the session whether or not the update failed, and then enters the loop |
| Agent.StartupOpenFails | app.js:106-113 | a failed start-up open returns normally: nothing is reported, nothing is closed, and the loop starts |
| Agent.StartupTwinFails | app.js:115 | `getTwin` throwing leads to exit() with the start-up session still open |
| Agent.StartupParseFails | app.js:117 | a file that does not parse, or a failed read, leads to exit() before the loop, with the start-up session still open |

## Left out

- The Azure IoT SDK itself is not modelled. Client creation, `open`, `getTwin`, the twin update, `sendEvent` and `close` appear only as their outcomes (returned, threw, callback ran with or without error).
- `JSON.stringify`, the `Message` wrapper and its `contentEncoding` and `contentType` are not modelled. The model stops at the property map of the body.
- `readSensors` (app.js:84-98) is an `Input`: its result is any JSON value, or a rejection. The model does not cover running the Python script through `execFile`. It also does not cover `JSON.parse` throwing inside the `execFile` callback. Such a throw is uncaught, so it would crash the process rather than reach the `catch` at app.js:43-45. The model keeps the `catch` path, which makes a failed read behave like a null reading.
- The TypeError thrown by `segs[1].trim()` for a labelled line without a colon carries no line. The model's `MissingColon` error records the line the walk stopped at. The program's error does not carry it.
- `fsPromises.readFile` is part of the `getSystemInfo` outcome. Its failure is an `Input` that rejects `getSystemInfo`, the same as a parse error.
- The clock (`Date.now()`) is a parameter of the sensor outcome. Console logging is not modelled, including the final `goodbye` (app.js:187-190), because nothing else depends on it.
- `clearDeviceDetails` (app.js:166-185) is never called by the program, so it is not modelled.
- Agent.StartupReports: a synchronous throw from `twin.properties.reported.update` is not modelled. Such a throw would reject `reportDeviceDetails` and lead to exit(). The model treats the update as always calling back.
- Agent.OpenedCycle: the loop's `await client.close(callback)` waits on nothing, because `close` in callback form returns no promise. The model records the close and moves on, and does not model the callback running later. The trace shows the close as issued, not as completed.
- Telemetry.Body: numbers are Dafny reals rather than IEEE doubles. Strings are sequences of characters, with no UTF-16 surrogate pairs, so a string spread yields one property per character rather than per UTF-16 code unit.
- Text.Trim: white space is the ECMAScript set of characters listed in `Text.IsWhiteSpace`. Line terminators are included. No other Unicode property is modelled.
- Asynchronous scheduling is not modelled: the program has one flow of control, and each `await` is one step of the machine.
