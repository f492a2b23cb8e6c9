# CorsairLink protocol engine in Dafny

This project models the protocol engine of CorsairLink. It covers two parts, the userland
tool OpenCorsairLink and the two Linux hwmon drivers `h80i` and `clink`. All of them talk to
Corsair coolers and Cooling Nodes. Both sides share one command language. Each command is an
id byte, an opcode and a register, followed by the bytes written. There are two layouts:

- **V1, the Cooling Node (clink).** One command per frame, and every fan or sensor has its own
  register.
- **V2, the H80i/H100i.** A frame selects a fan or sensor and then reads a shared register.
  It starts with a length byte.

Modules, one per concern:

- `Basics`: bytes, little-endian words, the errno values, and `Build`. `Build` selects the code
  as written or the code with each defect under Findings corrected. Every finding is modelled
  both ways.
- `FanInfo`: the fan record, the fan-mode codes, `CorsairFanInfo_init` and the mode-name table
  scan `GetFanModeString`.
- `Temperature`: how a fraction byte (1/256 °C) becomes thousandths of a degree. The drivers do
  this with a loop over the `temp256` table, and the tool with eight bit tests.
- `Wire`: the command encoding and its parser, the register tables of both layouts, and where
  a reply carries its value.
- `Capability`: the drivers' `CorsairID` device tables, the `devid_in` scan over them, and
  which devices each driver attaches to.
- `Correlator`: the kernel request/reply correlator.
  - The class `DriverLink` holds the driver state that `sendwait` and the interrupt handlers
    update in place: command state, `irq_buf`, `new_dat`, the pending id and opcode,
    `CommandId`, and the fan and sensor arrays.
  - Completions arriving during a wait are a sequence of URBs, handled in order.
- `Driver`: the drivers' request builders and the sysfs readers `fan_in`, `fan_max` and
  `temp_in`. It also holds `devid_in`, and `probe` with its fan and sensor loops and the
  attribute files it creates. Those files are modelled as sets of indices.
- `Link`: the userland `CorsairLink.c`.
  - The class `CorsairLink` holds the HID handle, `CommandId`, the read timeout, the fans array
    and the frames handed to `hid_write`.
  - `hid_read_wrapper` is a polling loop over what successive `hid_read` calls return.
  - Also modelled: `Initialize`, `ConnectedTemps`, `ReadTempInfo`, `ConnectedFans`,
    `ReadFansInfo`, `SetFansInfo` and `Close`.
- `Cli`: `parseArguments` (over options already split by getopt and converted by strtol) and
  `main`'s choice between setting one fan and showing everything.

The device is an input everywhere:

- **Userland.** A `Reply` per request: what `hid_write` returns, then what each poll of
  `hid_read` sees (no data, a report, or an error).
- **Drivers.** An `Exchange` per request: whether the URBs could be submitted, what the
  control transfer returned, and the completions that arrived.

Where the code and its design description disagree, the model follows the code:

- **Reply matching.** The drivers keep the pending id and opcode so that a reply can be
  checked against the request it answers (the comment at h80/h80i.c:667-672 and
  h80/clink.c:604-609). The handlers, however, accept a reply that matches the id *or* the
  opcode. The model follows the handlers, and the corrected build requires both.
- **Timeout.** The H80i driver reports success on a timeout.
- **No id check in userland.** The userland tool never looks at the id of a reply. It takes the
  first report that arrives, and when none arrives, the request bytes still in the buffer.
- **Read length.** `hid_read_wrapper` reads `sizeof(buf)` bytes, where `buf` is a pointer. The
  model uses 8, the size on a 64-bit build, as `ReadLimit`.
- **Fan mode.** The code stores whatever mode byte the device sends, not only the seven modes.

## Model

| member | source | states |
|---|---|---|
| Basics.Truncate | OpenCorsairLink/src/CorsairLink.c:448-450 | the byte kept by a store into `unsigned char` differs from the value by a multiple of 256 |
| Basics.Le16 | OpenCorsairLink/src/CorsairLink.c:337-341 | the assembled word has `lo` as its low byte and `hi` as its high byte |
| Basics.WordRoundTrip | OpenCorsairLink/src/CorsairLink.c:448-450 | splitting a 16-bit word into its low and high bytes and joining them again gives the word back |
| Basics.WordsDiffer | OpenCorsairLink/src/CorsairLink.c:481-488 | different byte pairs give different words, so a read-back word differs from the RPM sent when either byte does |
| FanInfo.ModeOf | OpenCorsairLink/src/CorsairFanInfo.h:3-11 | a register value that decodes to a mode is that mode's code |
| FanInfo.ModeCodeRoundTrip | OpenCorsairLink/src/CorsairFanInfo.h:3-11 | decoding the code of any mode gives back that mode |
| FanInfo.IsFanModeMeansDecodable | OpenCorsairLink/src/CorsairLink.c:392-395 | SetFansInfo's seven-way test accepts exactly the values that decode to a mode |
| FanInfo.ModeCodesShape | h80/h80i.c:419-427 | the seven codes are distinct, even, between 2 and 0x0E, and set neither bit 0x80 nor bit 0x01; the drivers declare the same values in the same order; 0x03 is not a mode |
| FanInfo.GetFanModeString | OpenCorsairLink/src/CorsairFanInfo.c:30-42 | a mode code gets the name the table pairs with it, and any other value (0x03 included) gets the sentinel's "N/A"; the Default code gets "Default" |
| FanInfo.Init | OpenCorsairLink/src/CorsairFanInfo.c:25-28 | the RPM is cleared and the mode becomes 0x03, a value that is no fan mode; the name and maximum are kept |
| Temperature.ConvFraqTemp | h80/h80i.c:816-827 | the loop over the temp256 mask table returns the thousandths `Milli(b)` of the fraction byte, at most 996 |
| Temperature.PrintTempFraction | OpenCorsairLink/src/CorsairFanInfo.c:51-85 | the printed whole degrees are the word's high byte, the printed thousandths are `Milli` of its low byte (below 1000), and the two bytes give back the word |
| Temperature.FractionBits | OpenCorsairLink/src/CorsairFanInfo.c:59-82 | the tool's eight bit tests compute the same thousandths as the drivers' table loop |
| Temperature.MilliDegrees | h80/h80i.c:864-872 | the milli-degree value the drivers show has the whole degrees as its thousands and the fraction's thousandths as its remainder |
| Temperature.MilliBitByBit | OpenCorsairLink/src/CorsairFanInfo.c:59-82 | the driver table's sum equals the sum of the weights 500, 250, 125, 62, 31, 16, 8, 4 of the set bits |
| Temperature.MilliBounds | h80/h80i.c:467-492 | thousandths never exceed 996; 0x00 gives 0 and 0xff gives 996 |
| Temperature.GapOfWeights | h80/h80i.c:467-492 | each bit's weight is at least that bit's gap, and the next bit's gap exceeds this bit's gap plus its weight |
| Temperature.BitWeightsGap | h80/h80i.c:467-492 | for bytes x < y, the weighted sum of y exceeds that of x by at least the gap of the lowest bit |
| Temperature.MilliIsBitWeights | h80/h80i.c:816-827 | the table loop's result equals a reference sum taken lowest bit first |
| Temperature.MilliStrictlyIncreasing | h80/h80i.c:467-492 | a larger fraction byte always gives strictly more thousandths |
| Temperature.MilliAccuracy | h80/h80i.c:467-492 | despite the truncated weights, the thousandths stay within 0.75 of the exact value 1000·b/256 (256·Milli(b) − 1000·b lies in −192..168) |
| Wire.DataLen | h80/h80i.c:381-393 | a data length exists exactly for the one- and two-byte read and write opcodes, and it is at most 2 |
| Wire.PortTablesAgree | OpenCorsairLink/src/CorsairLink.c:228-255 | the tool's port tables are the clink driver's register tables without their closing 0; fan registers run 0x0b.., maxima 0x10.., modes 0x20 + 0x10·i, fixed RPM two above the mode, sensors 0x0a downwards |
| Wire.Encode | h80/h80i.c:733-740 | an encoded request begins with the first command's id, opcode and register |
| Wire.ParseEncode | h80/h80i.c:733-740 | parsing the encoding of well-formed commands gives the commands back |
| Wire.EncodeParse | h80/h80i.c:733-740 | bytes that parse are well-formed commands and re-encode to exactly those bytes |
| Wire.UnpackPacket | h80/h80i.c:733-740 | a frame whose length byte counts the encoded commands unpacks to those commands, whatever padding follows |
| Wire.IdByte | h80/h80i.c:734 | a counter value within 0..255 goes on the wire unchanged |
| Wire.ReplyWordRoundTrip | h80/h80i.c:749-750 | a reply carrying the word v at the layout's value offset decodes to v, whatever its other bytes |
| Capability.LookupFrom | h80/h80i.c:948-954 | the scan ends inside the table, at or after where it started |
| Capability.LookupFromFindsFirst | h80/h80i.c:948-954 | the scan stops at the first entry with the id, or at the sentinel after finding none |
| Capability.LookupFindsFirst | h80/h80i.c:948-954 | the lookup is before the sentinel exactly when the id is in the table; no earlier entry has the id; an unknown id lands on the sentinel |
| Capability.DevIdScan | h80/h80i.c:946-954 | the loop returns 0 exactly for a known id, with the index of its first entry, and otherwise -ENOENT with the sentinel's index |
| Capability.TablesWellFormed | h80/h80i.c:520-534 | both tables have 8 entries, end with the id-0 sentinel and list the same ids and interfaces; supported entries are V2 in the h80i table and V1 in the clink table |
| Capability.SupportedFitSlots | h80/clink.c:443-457 | a supported device's fans and pumps fit the five fan slots and its sensors fit the sensor array |
| Capability.H80iAttachesExactly | h80/h80i.c:1120-1130 | the h80i driver attaches to ids 0x3b and 0x3c and to nothing else |
| Capability.ClinkAttachesExactly | h80/clink.c:1129-1139 | the clink driver attaches to id 0x38 and to nothing else |
| Capability.KnownDevices | h80/h80i.c:520-534 | id 0x3c is the V2 "h100i" with one sensor, four fans and a pump; an unlisted id is the "unknown" entry |
| Correlator.WaitAcceptsOnlyMatches | h80/h80i.c:1005-1013 | a wait hands over only a reply that passes the match test, and only while a request is in SEND or AWAIT; only the first 16 bytes of new_dat change; a wait that accepts nothing leaves new_dat and the state as they were |
| Correlator.SendWaitExits | h80/h80i.c:650-706 | sendwait always ends IDLE with the URB killed; new_dat is either still zeroed or an accepted reply; the result is the size, -EIO or, on the clink only, -ETIMEDOUT, or -ERESTARTSYS in the corrected build |
| Correlator.SuccessMeansReply | h80/clink.c:636-648 | in the corrected build, on both drivers, a result equal to the size means new_dat holds a reply that matches the request |
| Correlator.H80iAfterSend | h80/h80i.c:683-685 | the h80i state after its control transfer has returned is well-sized: SEND and the armed URB, then the completions that arrived meanwhile, then AWAIT (kept DONE in the corrected build) |
| Correlator.ClinkInterruptedWait | h80/clink.c:636-648 | as written, a signal that ends the clink's wait before any reply gets the size back with new_dat zeroed; corrected, -ERESTARTSYS |
| Correlator.H80iEarlyReplyOverwritten | h80/h80i.c:683-701 | as written, a matching reply handled while the control transfer is in flight is delayed: AWAIT replaces DONE, the URB is no longer armed and no later completion ends the wait, which runs to its timeout; sendwait then returns the size with that reply in new_dat; corrected, it returns the size with the reply at once |
| Correlator.H80iSilentDevice | h80/h80i.c:693-701 | as written, a device that never answers gets the size back with a zeroed new_dat; corrected, -EIO |
| Correlator.StaleReplyAccepted | h80/h80i.c:1005 | as written, a stale reply carrying an old id and the pending opcode ends the wait and its bytes are taken; corrected, it is dropped and the URB stays armed |
| Correlator.CorrectedStepAcceptsExactly | h80/clink.c:954-961 | corrected, a completion ends the wait exactly when it is delivered, echoes both the pending id and opcode, and a request is in SEND or AWAIT |
| Correlator.OneCommandIdsInRange | h80/clink.c:601-602 | one-command requests from a counter in 0x81..0xfe only ever send ids in 0x81..0xfe |
| Correlator.OddCounterIdsInRange | h80/h80i.c:664-665 | two-command requests from an odd counter only ever send ids in 0x81..0xfe |
| Correlator.EvenCounterSendsZero | h80/h80i.c:733-740 | two-command requests from an even counter step over 0xff, miss the reset and eventually send id 0 |
| Correlator.H80iCounterOddAfterIdentify | h80/h80i.c:1099 | the h80i counter starts at 0x81 and is 0x83 after the two identification requests, so every later two-command request sends ids in range |
| Correlator.DriverLink.constructor | h80/h80i.c:1099 | a new driver state starts with counter 0x81, no device, zeroed buffers, empty records and no attribute files |
| Correlator.DriverLink.Irq | h80/h80i.c:985-1017 | one completion moves the correlator exactly as `Step` says and changes nothing else |
| Correlator.DriverLink.Receive | h80/h80i.c:1005-1013 | a delivered completion updates irq_buf, new_dat and the state as `Step` says |
| Correlator.DriverLink.Deliver | h80/h80i.c:985-1017 | completions handled in order move the correlator exactly as `Wait` says |
| Correlator.DriverLink.SendWait | h80/h80i.c:650-706 | the result and the final correlator state are those of `SendWaitSpec`; the pending id and opcode come from the request; a counter at 0xff is reset to 0x81; the clink copies the request into irqout_buf |
| Correlator.DriverLink.Prepare | h80/h80i.c:656-674 | both buffers are cleared, the pending fields are taken from the request, and the counter is reset at 0xff |
| Correlator.DriverLink.RunH80i | h80/h80i.c:676-705 | the h80i wait gives the result and state that `H80iSendWait` describes, ending IDLE and disarmed |
| Correlator.DriverLink.RunClink | h80/clink.c:605-652 | the clink wait gives the result and state that `ClinkSendWait` describes, ending IDLE and disarmed |
| Driver.SelectRequestUnpacks | h80/h80i.c:733-740 | a V2 request unpacks to the select command and the read command, with ids c and c + 1 |
| Driver.SingleRequestUnpacks | h80/clink.c:680-684 | a one-command request unpacks to that command, and the three bytes the clink sends parse to it |
| Driver.PendingIsFirstCommand | h80/h80i.c:671-672 | the pending pair is the first command's id and opcode, so on the h80i any reply echoing WriteOneByte matches as written |
| Driver.ReadRoundTrip | h80/h80i.c:741-751 | a device answering a read with the word v makes sendwait return the size, and the word decoded from new_dat is v, on both drivers |
| Driver.ClinkAttrIndexOutOfBounds | h80/clink.c:703-707 | the clink registers register addresses as attribute indices, all beyond the fan and sensor arrays; the h80i registers the slot number |
| Driver.Transact | h80/h80i.c:741-742 | a request handed to sendwait gives the result and state that `Sent` describes |
| Driver.FanRead | h80/h80i.c:717-757 | a read that returns the size stores the RPM, maximum or mode decoded from new_dat in fans[k] and shows it; a failed read changes no record; the counter advances by the request's commands |
| Driver.TempIn | h80/h80i.c:832-876 | a successful read stores the sensor's whole and fractional bytes and shows milli-degrees whose thousands are the reply word's high byte; a failed one changes nothing |
| Driver.TempRead | h80/clink.c:773-815 | the sensor record is updated exactly when sendwait returns the size |
| Driver.SingleRead | h80/h80i.c:934-941 | a one-command identification request gives the result and state that `Sent` describes and uses one id |
| Driver.DevIdIn | h80/h80i.c:921-980 | a failed id read leaves no device; an unknown id gives -ENOENT and the sentinel entry; a known id with a firmware read gives 0, the first matching entry and the firmware word low byte first; a failed firmware read leaves no device |
| Driver.IdLookup | h80/h80i.c:946-972 | after the id is read, an unknown id gives -ENOENT without another request; a known one is recorded once the firmware read succeeds |
| Driver.FirmwareIn | h80/h80i.c:960-975 | the firmware word is stored low byte first when the read succeeds; otherwise the device is dropped |
| Driver.Identify | h80/h80i.c:1120-1124 | a zero result leaves a device within the table, after the two identification requests have each used one id; a non-zero result leaves no device or the sentinel |
| Driver.PresenceTests | h80/clink.c:1202-1203 | a fan present to the h80i test is present to the clink test; all-zero readings are never present; a sensor present to the h80i lies between 1 and 120 degrees |
| Driver.ProbeFan | h80/h80i.c:1148-1222 | the fan becomes `ProbedFan` of its three exchanges: named "Fan n" or "Pump", its mode, RPM and maximum the values read when each read succeeds and kept otherwise; its attribute files are created exactly when it is present; other fans are unchanged |
| Driver.FanReadings | h80/h80i.c:1155-1204 | the three reads of one fan use ids from the counter in turn and store each value only when its read succeeds |
| Driver.ProbeTemp | h80/h80i.c:1227-1262 | the sensor becomes `ProbedTemp` of its exchange: named, its bytes stored when the read succeeds; its file is created exactly when it is present; other sensors are unchanged |
| Driver.PresentFansExactly | h80/h80i.c:1205-1216 | the fans given files are exactly the present ones among the first n, and only those records matter |
| Driver.PresentTempsExactly | h80/h80i.c:1249-1255 | the sensors given files are exactly the present ones among the first n |
| Driver.PresentFansStep | h80/h80i.c:1148-1222 | probing fan i adds i to the file set exactly when it is present |
| Driver.PresentTempsStep | h80/h80i.c:1227-1262 | probing sensor i adds i to the file set exactly when it is present |
| Driver.ProbeNextFan | h80/h80i.c:1148-1222 | one iteration of the fan loop turns fan i into the loop step's record from exchanges 3i..3i+2 and ids 3i on, names it, advances the counter by three requests and adds it to the file set exactly when it is present |
| Driver.ProbeNextTemp | h80/h80i.c:1227-1262 | one iteration of the sensor loop turns sensor i into the loop step's record from exchange i, names it, advances the counter by one request and adds it to the file set exactly when it is present |
| Driver.SlotLoopAt | h80/h80i.c:1148-1222 | after a slot loop over i..n, every slot j in that range holds the step applied to its old value |
| Driver.SlotLoopKeeps | h80/h80i.c:1148-1222 | a slot loop over i..n leaves every slot outside that range as it was |
| Driver.SlotLoopBelow | h80/h80i.c:1148-1222 | a slot already passed by the loop can be updated before or after the rest of the loop with the same result |
| Driver.SlotLoopStep | h80/h80i.c:1148-1222 | doing step i first and then the loop from i + 1 equals the loop from i, which is the fan and sensor loops' invariant |
| Driver.FanLoopAt | h80/h80i.c:1148-1222 | after the fan loop, fan j below the device's count is `ProbedFan` of exchanges 3j..3j+2 with the ids the counter has reached after 3j requests; later fans are unchanged |
| Driver.FanLoopNames | h80/h80i.c:1149-1153 | after the fan loop every fan and pump slot carries its name |
| Driver.TempLoopAt | h80/h80i.c:1227-1262 | after the sensor loop, sensor j below the count is `ProbedTemp` of exchange j with the id after j requests; later sensors are unchanged |
| Driver.TempLoopNames | h80/h80i.c:1228-1230 | after the sensor loop every sensor slot carries its name |
| Driver.CounterSteps | h80/h80i.c:664-665 | the counter after k requests and then m more is the counter after k + m requests |
| Driver.ProbeFans | h80/h80i.c:1148-1222 | the fan records become `FanLoop` of the start counter and the exchanges, so each fan is what its three reads returned; every fan and pump slot is named, files are created exactly for the present ones, and later slots are untouched |
| Driver.ProbeTemps | h80/clink.c:1228-1262 | the sensor records become `TempLoop` of the start counter and the exchanges; every sensor is named and files are created exactly for the present ones |
| Driver.ProbeSlots | h80/h80i.c:1148-1262 | a supported device's fans and sensors fit their arrays; the fans are `FanLoop` of the fan exchanges and the sensors `TempLoop` of the sensor exchanges with the counter the fan loop left; all are named, and exactly the present ones have files |
| Driver.Probe | h80/h80i.c:1050-1319 | the driver attaches exactly when identification finds a supported device; then the fan and sensor records are the loops' results from the counter identification left, every slot is named and exactly the present ones have files; otherwise no file is created |
| Link.HidRead | OpenCorsairLink/src/CorsairLink.c:547 | one read copies at most 8 bytes of the report over the head of the buffer and keeps the rest, and returns that count; no data (0) or an error (negative, and only an error) leaves the buffer alone |
| Link.PollingSeesPrefix | OpenCorsairLink/src/CorsairLink.c:546-554 | the polling loop's result depends only on the polls made before the timeout |
| Link.WrapperReadsAtMostFifty | OpenCorsairLink/src/CorsairLink.c:546-554 | with the 5-second timeout, at most 50 polls are made |
| Link.SilentPolling | OpenCorsairLink/src/CorsairLink.c:546-554 | a device that never answers leaves the buffer as it was, and the loop ends at the timeout |
| Link.SilentRead | OpenCorsairLink/src/CorsairLink.c:555-557 | as written a silent device gets result 1 and the request bytes still in the buffer; corrected, 0 |
| Link.ReadErrorHidden | OpenCorsairLink/src/CorsairLink.c:549-557 | a read error is reported as 1 as written, and as -1 corrected; the buffer is untouched |
| Link.FirstReportTaken | OpenCorsairLink/src/CorsairLink.c:546-554 | the first report is taken: its first bytes (at most 8) overwrite the buffer; the result is 1 as written and the byte count corrected |
| Link.ReadRequestShape | OpenCorsairLink/src/CorsairLink.c:277-300 | a V1 read frame encodes one ReadTwoBytes command of the slot's port; a V2 frame unpacks to the select command and the read of the shared register |
| Link.ReportDecodes | OpenCorsairLink/src/CorsairLink.c:336-341 | a report carrying the word w at the layout's value offset makes the decoded RPM w and the decoded mode its low byte |
| Link.IdentityAgreesWithDrivers | OpenCorsairLink/src/CorsairLink.c:68-84 | the tool accepts on each interface exactly the ids the matching driver attaches to |
| Link.CorsairLink.constructor | OpenCorsairLink/src/CorsairLink.c:92-97 | a fresh link has no handle, a zero counter and timeout, nothing written and five empty fan records |
| Link.ReadWrapper | OpenCorsairLink/src/CorsairLink.c:539-558 | the polling loop returns the result and buffer `ReadWrapperSpec` describes |
| Link.Initialize | OpenCorsairLink/src/CorsairLink.c:13-90 | an open link or a failed hid_init or hid_open returns 0 and changes nothing; otherwise one identify frame is written, and the result is 1 with the product's handle exactly when the id read is one the interface accepts |
| Link.CorsairLinkInit | OpenCorsairLink/src/CorsairLink.c:92-98 | the link opens exactly when init, open and identification succeed, with the timeout 5000 ms and the counter at 0x82 |
| Link.Close | OpenCorsairLink/src/CorsairLink.c:494-500 | the handle is dropped and nothing else changes |
| Link.ConnectedTemps | OpenCorsairLink/src/CorsairLink.c:100-127 | the Cooling Node has 4 sensors without a request; the H80i sends the count request and returns the byte at offset 2 of what was read |
| Link.SensorCount | OpenCorsairLink/src/CorsairLink.c:100-127 | a reply's third byte is the sensor count; with no reply, the request's own ReadOneByte opcode 7 is taken for the count |
| Link.ReadTempInfo | OpenCorsairLink/src/CorsairLink.c:137-183 | the request for the sensor is written and the word at the layout's offset of what was read into a cleared buffer is returned |
| Link.SilentTemperatureIsZero | OpenCorsairLink/src/CorsairLink.c:168-181 | with no reply, the temperature read into the cleared buffer is 0 |
| Link.FansCounted | OpenCorsairLink/src/CorsairLink.c:196-223 | the count never exceeds the number of fans probed |
| Link.ConnectedFans | OpenCorsairLink/src/CorsairLink.c:185-226 | the Cooling Node has 5 fans without a request; the H80i writes five mode requests, with two ids each, and counts the fans whose mode byte is not 0x03 |
| Link.ReadMode | OpenCorsairLink/src/CorsairLink.c:198-222 | one mode request of ConnectedFans, with ids c + 2i and c + 2i + 1, returns the mode byte read |
| Link.SilentModeSeen | OpenCorsairLink/src/CorsairLink.c:198-222 | with no reply, the mode byte seen is the fan index still in the request buffer |
| Link.SilentDeviceHasFourFans | OpenCorsairLink/src/CorsairLink.c:185-226 | an H80i that never answers is counted as having 4 fans: each read leaves the request in the buffer, the mode byte seen is the fan's own index, and only index 3 equals 0x03 |
| Link.FanRead | OpenCorsairLink/src/CorsairLink.c:277-309 | one read writes its request, advances the counter by the request's commands and returns the uncleared buffer after the read |
| Link.RecordOfReplies | OpenCorsairLink/src/CorsairLink.c:336-380 | the record built from the three reply buffers is `FanRecord` of those replies |
| Link.FanReads | OpenCorsairLink/src/CorsairLink.c:277-376 | the mode, RPM and maximum reads of one fan use consecutive ids and write their three frames in order |
| Link.ReadFan | OpenCorsairLink/src/CorsairLink.c:262-380 | fans[i] becomes the named record of the mode, RPM and maximum read; other fans are unchanged |
| Link.ReadFansInfo | OpenCorsairLink/src/CorsairLink.c:257-384 | every fan i holds the record read from replies 3i..3i+2 with the ids that fan's requests carry; the frames written are all fans' frames in order |
| Link.ReadNextFan | OpenCorsairLink/src/CorsairLink.c:262-380 | one iteration of ReadFansInfo's loop stores fan i's record and advances the counter to the next fan's first id |
| Link.FanRecordDecodes | OpenCorsairLink/src/CorsairLink.c:277-380 | a device that answers each read at once with mode m, RPM r and maximum x yields exactly the record (name, r, x, m) |
| Link.FanReplyDecodes | OpenCorsairLink/src/CorsairLink.c:336-341 | a report carrying a word at the value offset decodes to that word |
| Link.SilentFanRecord | OpenCorsairLink/src/CorsairLink.c:277-380 | a silent device yields records built from the request bytes left in the buffer, not zeros |
| Link.FanReplySilent | OpenCorsairLink/src/CorsairLink.c:277-376 | with no reply the buffer after a read is the request itself |
| Link.ModeSetRequest | OpenCorsairLink/src/CorsairLink.c:397-419 | the mode request fills the 256-byte buffer; what its commands are is stated by `Link.ModeSetCommands` |
| Link.SetMode | OpenCorsairLink/src/CorsairLink.c:397-436 | the mode request is written; the half fails when the write or the read reports an error, or when the H80i reads back another mode |
| Link.SetRpm | OpenCorsairLink/src/CorsairLink.c:441-489 | the RPM request is written; the half fails on a write or read error or, except on the Cooling Node, when the word read back is not the RPM sent |
| Link.SetFansInfo | OpenCorsairLink/src/CorsairLink.c:386-492 | the result, the frames written and the ids used are those of `SetSpec` |
| Link.SetSpecFrames | OpenCorsairLink/src/CorsairLink.c:386-492 | an invalid mode fails with nothing sent; each request uses one id on the Cooling Node and three on the H80i; the RPM request goes out only for a nonzero RPM, and the mode request always goes first |
| Link.ModeSetCommands | OpenCorsairLink/src/CorsairLink.c:397-419 | the V1 mode frame parses to one WriteOneByte of the fan's mode register; the V2 frame unpacks to select, write mode and read mode back |
| Link.RpmSetCommands | OpenCorsairLink/src/CorsairLink.c:441-468 | corrected, the V1 RPM frame parses to one WriteTwoBytes of the fan's fixed-RPM register with the RPM low byte first; the V2 frame unpacks to select, write fixed RPM and read RPM |
| Link.RpmSetAsWritten | OpenCorsairLink/src/CorsairLink.c:444-468 | as written, the V1 RPM frame no longer parses, and its first command writes only the RPM's low byte; the V2 frame's length byte 0x0b cuts off its last byte, so it does not unpack |
| Link.ModeReadBack | OpenCorsairLink/src/CorsairLink.c:421-436 | on the H80i with no RPM, SetFansInfo succeeds exactly when the mode read back is the mode sent |
| Link.RpmReadBack | OpenCorsairLink/src/CorsairLink.c:481-488 | on the H80i with the mode confirmed, SetFansInfo succeeds exactly when the word read back is the RPM sent |
| Link.ClinkUnconfirmed | OpenCorsairLink/src/CorsairLink.c:421-489 | the Cooling Node's settings are never read back: a silent device still gets success |
| Link.ReadErrorTakenForConfirmation | OpenCorsairLink/src/CorsairLink.c:421-436 | as written, a read error after the H80i's Default-mode request counts as confirmation, because the stale opcode 0x06 is the Default code; corrected, the call fails |
| Cli.ParseArguments | OpenCorsairLink/src/main.c:120-181 | the option loop gives the result `ParseFrom` describes |
| Cli.ParseSucceedsFrom | OpenCorsairLink/src/main.c:120-181 | parsing from position k returns success exactly when every remaining option is acceptable |
| Cli.ParseSucceedsIff | OpenCorsairLink/src/main.c:120-181 | parsing succeeds exactly when every option is acceptable |
| Cli.ParsedInRangeFrom | OpenCorsairLink/src/main.c:131-170 | a successful parse from in-range settings keeps them in range |
| Cli.ParsedInRange | OpenCorsairLink/src/main.c:131-170 | a successful parse gives interface 1 or 2, fan 0 to 4, no mode or one of the five accepted modes, and an RPM that is not negative |
| Cli.RefusedFrom | OpenCorsairLink/src/main.c:120-181 | once an option is refused, options after it do not change the result |
| Cli.RefusedIgnoresRest | OpenCorsairLink/src/main.c:120-181 | a refused command line stays refused, with the same settings, whatever follows it |
| Cli.CliModesAreFanModes | OpenCorsairLink/src/main.c:148-160 | every mode the command line accepts is a fan mode; only Fixed PWM and Custom are fan modes it refuses |
| Cli.Dispatch | OpenCorsairLink/src/main.c:53-78 | main queries exactly when no fan, mode or RPM is given; it sets a fan only with a fan number and never Fixed RPM without a positive RPM |
| Cli.RejectedExactly | OpenCorsairLink/src/main.c:53-78 | main refuses exactly a mode or RPM without a fan, a fan without a mode or RPM, and Fixed RPM without a positive RPM |
| Cli.ReadTemps | OpenCorsairLink/src/main.c:80-86 | the sensor loop reads each sensor in turn, returning the values `TempShown` describes and using one or two ids per sensor |
| Cli.ShowAll | OpenCorsairLink/src/main.c:80-92 | the temperatures shown are one per sensor seen, and every fan record is the one ReadFansInfo stores from ids after the sensor reads |
| Cli.Run | OpenCorsairLink/src/main.c:28-98 | main returns the parse's exit code, 1 for a refused command line or a link that does not open, 1 after identification for a refused fan request; a fan request writes the identify frame and SetFansInfo's frames and returns 0; a query yields the `TempShown` value of each sensor and the fan records; the link is closed after both |
| Cli.StackRpmSent | OpenCorsairLink/src/main.c:59-68 | as written, a mode-only request on the Cooling Node also sends an RPM request when stale stack memory holds an RPM; corrected, only the mode request goes out |
| Cli.RequestFollowsOptions | OpenCorsairLink/src/main.c:59-68 | corrected, an RPM request is sent only for an RPM given on the command line, and no mode given means nothing is sent and the call fails |
| Cli.StackModeUsed | OpenCorsairLink/src/main.c:59-68 | with no mode given, the record handed to SetFansInfo carries the stale stack mode as written, and 0x03 (no mode) corrected |

## Left out

- CorsairLink.h is not part of this model. NUMFANS = 5, H80I = 1 and CLINK = 2 are taken from
  the tool's port tables, help text and option checks.
- hidapi is not modelled: enumeration, `hid_open`, `hid_init`, `hid_set_nonblocking`, `hid_exit`,
  and the meaning of handles. A handle is the product id, and `hid_init`/`hid_open` success is
  an input.
- `GetManufacturer`, `GetProduct`, `PrintInfo` and `printHelp` are not modelled. They only print
  strings fetched from or held by other code.
- Printing is not modelled: main returns the temperatures and fan records it would print.
- `Csleep` and real time are not modelled. The polling loop counts 100 ms steps.
- The drivers' wait timeout (`rw_ms_timeo`) is not modelled: a wait sees the completions that
  arrive before it ends, given as a sequence.
- Concurrency is not modelled: the mutexes, `atomic_*` and the interrupt context. Completions
  are handled one at a time between the driver's steps.
- Memory management is not modelled: `kmalloc`/`kfree` failures (-ENOMEM), URB allocation, and
  the probe's and disconnect's freeing. `disconnect` itself is not modelled.
- The LED attributes and the hwmon device registration are not modelled. Attribute files are
  sets of fan and sensor indices.
- Command-line tokenising (getopt) and `strtol` are not modelled. Options arrive already split
  and converted.
- The register width is not modelled: `CommandId` is an unbounded integer, and only its byte
  (`IdByte`) goes on the wire.
- Link.ReadWrapperSpec: the corrected wrapper returns 0 when the loop ends at the timeout, even
  if the last poll brought data. That follows the code's own `sleepTotal == max_ms_read_wait`
  test.
- Correlator.SuccessMeansReply: stated for the corrected build only. As written, the clink
  returns the size after an interrupted wait with no reply, as under Findings.
- Link.ReadFansInfo: each stored record is stated fan by fan through `StoredFan` rather than as
  one array value.

## Findings

| source | as written | input that shows it | evidently intended | confidence | as-written member | corrected member |
|---|---|---|---|---|---|---|
| h80/h80i.c:1005 | the interrupt handlers accept a reply whose id OR opcode matches the pending request (also h80/clink.c:954) | an h80i waiting for id 0x85 / WriteOneByte receives a stale reply 0x83, WriteOneByte: it is accepted and copied to new_dat | accept only a reply whose id AND opcode match | not executed | Correlator.StaleReplyAccepted | Correlator.CorrectedStepAcceptsExactly |
| h80/h80i.c:693-701 | after a timed-out wait sets -EIO, `retval = size` overwrites it | a device that never answers: sendwait returns the size with new_dat all zeros, and the readers report 0 RPM | report the timeout as -EIO | not executed | Correlator.H80iSilentDevice | Correlator.SuccessMeansReply |
| h80/h80i.c:684-685 | AWAIT is set after the control transfer returns, overwriting the DONE that the handler may have set meanwhile | a device that answers while the control transfer is in flight: the handler sets DONE and stops resubmitting, AWAIT replaces DONE, and the wait runs to its timeout before the size is returned with the reply | set AWAIT before the transfer, or keep DONE | not executed | Correlator.H80iEarlyReplyOverwritten | Correlator.H80iAfterSend |
| h80/clink.c:636-648 | an interrupted wait (negative result) falls through to `retval = size` | a signal arrives before any reply: sendwait returns the size with new_dat all zeros | report the interruption | not executed | Correlator.ClinkInterruptedWait | Correlator.SendWaitExits |
| h80/clink.c:703-707 | the fan and sensor attributes carry register addresses (0x0b.., 0x10.., 0x07..) that the readers use to index fans[] and temps[] | reading fan1_input indexes fans[0x0b], past the end of the array | index the arrays by slot number, as the h80i does | not executed | Driver.ClinkAttrIndexOutOfBounds | Driver.FanRead |
| OpenCorsairLink/src/CorsairLink.c:557 | hid_read_wrapper always returns 1, hiding read errors and timeouts | a read error after the H80i's Default-mode request: the stale opcode 0x06 in the buffer reads back as the Default mode, and SetFansInfo succeeds | return the hid_read result (negative on error, 0 on timeout) | not executed | Link.ReadErrorTakenForConfirmation | Link.ReadErrorHidden |
| OpenCorsairLink/src/CorsairLink.c:454 | the V2 fixed-RPM frame carries the length byte 0x0b, but its three commands take 12 bytes | any RPM on the H80i: the frame as announced ends before the read-back command's register and does not unpack | length 0x0c | not executed | Link.RpmSetAsWritten | Link.RpmSetCommands |
| OpenCorsairLink/src/CorsairLink.c:447 | the V1 fixed-RPM frame uses the WriteOneByte opcode for a two-byte value | any RPM on the Cooling Node: the frame parses as a one-byte write of the low byte followed by a stray byte | WriteTwoBytes | not executed | Link.RpmSetAsWritten | Link.RpmSetCommands |
| OpenCorsairLink/src/main.c:37 | the fan record passed to SetFansInfo is an uninitialised local; a mode or RPM not given keeps whatever the stack holds | a mode-only request on the Cooling Node while the stack holds a nonzero RPM: a fixed-RPM request is also sent | start from CorsairFanInfo_init and set only what was given | not executed | Cli.StackRpmSent | Cli.RequestFollowsOptions |
