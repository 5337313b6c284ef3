# A verified model of the maimai touch-controller firmware core

This project models the deterministic core of the NKQC maimai input-control firmware in Dafny and proves properties of it. The firmware runs on an RP2040 board, together with small PSoC touch-sensor boards. The model covers the buffers, parsers, tables and state machines between the hardware drivers:

- **Serial links and framing:**
  - the UART transmit and receive rings (`HalUart`);
  - the Mai2Serial command stream and its touch report (`Mai2Serial`);
  - the Mai2Light LED protocol, with its XOR checksum, EEPROM window and string commands (`Mai2Light`);
  - the BD15070 light-board protocol of the light manager, with its SYNC/MARKER escaping, sum checksum and region-mapping records (`LightManager`);
  - the nine-byte touch packet and the `U`/`D` commands of the standalone loop (`MaiCom`).
- **Configuration:** the typed configuration values with their ranges (`ConfigTypes`) and the configuration store, with its byte encodings and validation (`ConfigManager`).
- **Input handling:**
  - the logical key slots (`InputKeys`);
  - the touch-board table, sensitivities, HID slots, delay buffer and calibration progress (`InputManager`);
  - the three typed mapping tables (`InputMapping`);
  - the device registry (`InputDevices`);
  - the 32-bit id/channel masks of the touch sensors (`TouchSensorMask`) and the GTX312L physical address (`Gtx312l`).
- **USB HID:** the keyboard, mouse and touch reports (`Hid`), and the NKRO bitmap conversion and single-key report of the USB layer (`HalUsb`).
- **The touch core of `core.cpp`:** the timed touch queue (`CoreQueue`) and the ring-neighbour region correction (`CoreRegions`).
- **Display and user interface:**
  - the NeoPixel strip (`NeoPixelStrip`);
  - the framebuffer engine (`Graphics`) and the fonts and UTF-8 decoding (`Fonts`);
  - the scroll bar (`ScrollBars`), the line configurations (`LineConfigs`) and the page template (`PageTemplates`);
  - the construct pages, page stack and menu system (`UiConstructs`);
  - the page history (`PageHistory`), the shared-data map (`SharedData`) and the page registry (`PageRegistries`);
  - the UI manager's key names, navigation, error history and LED selection (`UiManager`);
  - the settings pages: communication (`CommunicationSettingsPage`), keyboard (`KeyboardSettingsPage`), touch status (`TouchStatus`), area and zone sensitivity (`AreaSensitivity`, `ZoneSensitivity`), binding (`BindingSettings`) and main page (`MainPage`).
- **Sensor-board firmware:**
  - the AD7147 calibration tools (`Ad7147Tools`);
  - the fast-trigger release algorithm (`FastTrigger`);
  - the I2C register file (`I2cModule`).
- **Logging:** the USB serial logger's level filter, timestamp text, queue and statistics (`UsbSerialLogs`).

`Bits`, `Common`, `Text`, `StringMaps` and `PageTypes` hold shared definitions:

- bit operations on naturals;
- fixed-width integer types;
- decimal text and its reader;
- maps keyed by strings;
- the page and joystick enumerations.

Code that updates state in place is a class with `modifies` clauses. Its methods are specified by functions of the old state, so loops carry invariants. Pure code is functions and lemmas. Hardware calls, the clock and random numbers are parameters of the operations that use them.

Integers are unbounded in Dafny. Where the firmware relies on a C width, the model writes the wrap-around out. Examples are `uint8_t` counters, `int16_t` coordinates and the 32-bit statistics counters. C's truncating `%` on negative numbers is written out as well (`Common.CRem`).

## Model

| member | source | states |
|---|---|---|
| HalUart.Count | src/hal/uart/hal_uart.cpp:140-144 | the two-branch count of pending bytes is `(head - tail) mod 256`, below 256, and moving `tail` forward by it reaches `head` |
| HalUart.Uart.constructor | src/hal/uart/hal_uart.cpp:19-23 | a new driver is not initialised and both rings are empty |
| HalUart.Uart.Init | src/hal/uart/hal_uart.cpp:59-61 | initialising empties the receive ring and keeps the transmit ring |
| HalUart.Uart.WriteToTxBuffer | src/hal/uart/hal_uart.cpp:102-120 | with no driver or a null pointer nothing is written; otherwise the longest prefix of the data that leaves one slot free is appended to the transmit ring and its length returned |
| HalUart.Uart.ReadFromRxBuffer | src/hal/uart/hal_uart.cpp:122-135 | with no driver or no buffer nothing is read; otherwise the oldest `min(length, pending)` bytes are returned in order and removed from the ring |
| HalUart.Uart.Available | src/hal/uart/hal_uart.cpp:137-145 | the number of received bytes not yet read, 0 before initialisation |
| HalUart.Uart.RxBufferDataCount | src/hal/uart/hal_uart.cpp:435-441 | the number of received bytes not yet read |
| HalUart.Uart.TxBufferFreeSpace | src/hal/uart/hal_uart.cpp:426-432 | the free transmit space is 255 minus the queued bytes: one slot always stays empty |
| HalUart.Uart.FlushRx | src/hal/uart/hal_uart.cpp:147-150 | both receive indices return to 0 and nothing is pending |
| HalUart.Uart.StoreRxByte | src/hal/uart/hal_uart.cpp:175-180 | a received byte is appended exactly when fewer than 255 bytes are pending, and dropped otherwise |
| Mai2Serial.TokenizeSplits | src/protocol/mai2serial/mai2serial.cpp:300-331 | the sliding-window parse loses no byte: the consumed frames and text bytes followed by what is left are the stream; what is left is empty or an incomplete frame starting with '{'; every consumed frame is eight bytes starting with '{' |
| Mai2Serial.TokenizeStep | src/protocol/mai2serial/mai2serial.cpp:302-330 | consuming one frame or one text byte from the front advances the parse by exactly that token and keeps what is left over |
| Mai2Serial.AppendDropOldestKeepsNewest | src/protocol/mai2serial/mai2serial.cpp:290-298 | appending with drop-oldest leaves the newest `size` bytes of the old stream followed by the data |
| Mai2Serial.DecodePacket | src/protocol/mai2serial/mai2serial.cpp:185-205 | a packet is accepted exactly when it has at least five bytes, starts with '{' and has '}' after the first byte; its fields are bytes 1 to 4 |
| Mai2Serial.HasEndByte | src/protocol/mai2serial/mai2serial.cpp:191-197 | the search answers whether '}' occurs in the searched range |
| Mai2Serial.ParseCommand | src/protocol/mai2serial/mai2serial.cpp:350-393 | an empty line does nothing; otherwise the parameter is the rest of the line, the help text is sent exactly for "/help", and the callback gets E, L, r and k as themselves and every other letter as STAT |
| Mai2Serial.LineCommand | src/protocol/mai2serial/mai2serial.cpp:338-339 | a line yields at most one command: none exactly when its text up to the first zero byte is empty, and the parameter is the rest of that text after the command letter |
| Mai2Serial.WholeLineParsed | src/protocol/mai2serial/mai2serial.cpp:338-339 | a line without zero bytes is parsed whole |
| Mai2Serial.AfterTokensSnoc | src/protocol/mai2serial/mai2serial.cpp:301-331 | handing on one more token applies that token to the session the earlier tokens left |
| Mai2Serial.AfterTokensAppend | src/protocol/mai2serial/mai2serial.cpp:285-332 | handing on two runs of tokens, as two DMA batches do, is handing on the first and then the second from where it left the session |
| Mai2Serial.ChannelsIndependent | src/protocol/mai2serial/mai2serial.cpp:301-393 | text bytes never change the status, baud rate or touch-data flag; text bytes other than CR and LF also leave the UART writes, callback calls and parsed lines alone, since only a line end hands a line to `parse_command`; frames never change the parsed lines or the line buffer |
| Mai2Serial.TextBuffered | src/protocol/mai2serial/mai2serial.cpp:334-348 | text bytes without a line end that fit the eight-byte line buffer are only appended to it |
| Mai2Serial.LineAnswered | src/protocol/mai2serial/mai2serial.cpp:334-393 | a line of up to seven bytes typed into an empty line buffer and ended by CR goes to `parse_command` whole: the help text and CR LF are sent exactly when it is "/help" and the port is ready, the callback is called with its command and the rest of the line, and the line buffer is empty again |
| Mai2Serial.LeadingNulIgnored | src/protocol/mai2serial/mai2serial.cpp:338-339 | a line that starts with a zero byte yields no command |
| Mai2Serial.Mai2Serial.constructor | src/protocol/mai2serial/mai2serial.cpp:8-23 | a new port is stopped, not initialised, at the default baud rate, with empty buffers and no manual triggers |
| Mai2Serial.Mai2Serial.Init | src/protocol/mai2serial/mai2serial.cpp:31-40 | initialising a second time is refused; the first time the port becomes ready |
| Mai2Serial.Mai2Serial.SendResponse | src/protocol/mai2serial/mai2serial.cpp:113-122 | a response goes out, followed by CR LF, exactly when the port is ready |
| Mai2Serial.Mai2Serial.Start | src/protocol/mai2serial/mai2serial.cpp:129-138 | starting succeeds exactly when ready; the port is then running and "OK" is sent |
| Mai2Serial.Mai2Serial.Stop | src/protocol/mai2serial/mai2serial.cpp:140-148 | stopping succeeds exactly when initialised; the port is then ready and "STOPPED" is sent |
| Mai2Serial.Mai2Serial.Reset | src/protocol/mai2serial/mai2serial.cpp:150-161 | resetting succeeds exactly when initialised; the baud rate returns to its default, the port is ready and "RESET OK" is sent |
| Mai2Serial.Mai2Serial.SetBaudRate | src/protocol/mai2serial/mai2serial.cpp:164-182 | a baud rate is taken exactly when the port is initialised and the rate is one of the seven supported ones; otherwise the rate is unchanged |
| Mai2Serial.Mai2Serial.SendCommandResponse | src/protocol/mai2serial/mai2serial.cpp:266-282 | when ready, the six bytes '(' lr sensor cmd value ')' are sent; otherwise nothing |
| Mai2Serial.Mai2Serial.NotifyCallback | src/protocol/mai2serial/mai2serial.cpp:380-392 | the command callback is called once, with the command and its parameters, exactly when one is set |
| Mai2Serial.Mai2Serial.ProcessCommandPacket | src/protocol/mai2serial/mai2serial.cpp:185-263 | an invalid packet changes nothing; E resets (sending "RESET OK" when initialised), stops touch data and calls back with no parameters; L stops (sending "STOPPED" when initialised), stops touch data and calls back with no parameters; A starts (sending "OK" when ready) and resumes touch data; r echoes `(lr sensor r value)` and k echoes `(R sensor k value)`, each calling back with sensor and value; every callback happens exactly when one is installed; any other command changes nothing |
| Mai2Serial.Mai2Serial.ParseLine | src/protocol/mai2serial/mai2serial.cpp:350-393 | a parsed line sends the help text with CR LF when it is "/help" and the port is ready, then calls the callback once when one is installed, and is recorded as parsed; nothing else changes |
| Mai2Serial.Mai2Serial.ProcessReceivedByte | src/protocol/mai2serial/mai2serial.cpp:334-393 | CR or LF ends a non-empty line, whose text up to its first zero byte goes to `parse_command` (help reply and callback as `ParseLine` states), and empties the line buffer; another byte is appended, or the line buffer is emptied when full, and writes nothing and calls nothing; the port's session changes exactly as `AfterTextByte` says |
| Mai2Serial.Mai2Serial.DropFront | src/protocol/mai2serial/mai2serial.cpp:320-322 | shifting the stream buffer left by `n` leaves the stream without its first `n` bytes |
| Mai2Serial.Mai2Serial.AppendToStream | src/protocol/mai2serial/mai2serial.cpp:290-298 | the received bytes are appended to the stream buffer, the oldest byte making room whenever it is full |
| Mai2Serial.Mai2Serial.ParseFront | src/protocol/mai2serial/mai2serial.cpp:302-330 | one step of the parse either consumes the next token of the stream, handing a frame to `process_command_packet` or a text byte to `process_received_byte` (the session changes as `AfterToken` says), or, on an incomplete frame at the front, changes nothing |
| Mai2Serial.Mai2Serial.ParseStream | src/protocol/mai2serial/mai2serial.cpp:301-393 | the parse loop consumes every complete token of the stream in order and leaves only the incomplete rest; the status, baud rate, touch-data flag, UART writes and callback calls (frame replies and callbacks and text-line help replies and callbacks, in the order the tokens are handed on), parsed lines and line buffer end as handing on those tokens one by one (`AfterTokens`) leaves them |
| Mai2Serial.Mai2Serial.ProcessDmaReceivedData | src/protocol/mai2serial/mai2serial.cpp:285-393 | no data or a null pointer changes nothing; otherwise the data is appended with drop-oldest and every complete token of the result is consumed, leaving the incomplete rest, and the status, baud rate, touch-data flag, UART writes and callback calls (frame replies and callbacks and text-line help replies and callbacks, in the order the tokens are handed on), parsed lines and line buffer end as handing on those tokens leaves them |
| Mai2Serial.Mai2Serial.SendTouchData | src/protocol/mai2serial/mai2serial.cpp:77-94 | touch data is sent exactly when the port is ready (READY or RUNNING) with touch data on and the UART takes it; the manual triggers are merged into the touch words by OR |
| Mai2Serial.Mai2Serial.ManuallyTriggerArea | src/protocol/mai2serial/mai2serial.cpp:406-418 | exactly the bit of area `area - 1` is set, in the first word for areas 1 to 32 and in the second for 33 and 34; other areas set nothing |
| Mai2Serial.Mai2Serial.ClearManuallyTriggerArea | src/protocol/mai2serial/mai2serial.cpp:420-423 | both manual trigger words are cleared |
| Mai2Light.BlendChannel | src/protocol/mai2light/mai2light.cpp:37-43 | a blended channel lies between the two inputs, is the first at ratio 0 and the second at ratio 255 |
| Mai2Light.Blend | src/protocol/mai2light/mai2light.cpp:37-43 | `blend` with ratio 0 gives this colour, with ratio 255 the other, and every channel lies between the two colours' channels |
| Mai2Light.ChecksumClosesFrame | src/protocol/mai2light/mai2light.cpp:578-589 | a frame XORs to zero as a whole exactly when its last byte is the XOR of the bytes before it |
| Mai2Light.CalculateChecksum | src/protocol/mai2light/mai2light.cpp:578-584 | the checksum is the XOR of the first `length` bytes |
| Mai2Light.VerifyChecksum | src/protocol/mai2light/mai2light.cpp:587-589 | verification succeeds exactly when the XOR of the bytes equals the expected checksum |
| Mai2Light.ParsePacket | src/protocol/mai2light/mai2light.cpp:547-575 | a packet is accepted exactly when it has at least five bytes, starts with the sync byte and its checksum matches; the fields are then the frame's decoding |
| Mai2Light.EncodeFrame | src/protocol/mai2light/mai2light.cpp:413-438 | a sent frame is `length + 5` bytes long and XORs to zero, so its last byte is the checksum of the rest |
| Mai2Light.EncodeThenDecode | src/protocol/mai2light/mai2light.cpp:421-433 | parsing a frame that `send_packet` wrote gives back the node, length, command and the transmitted data bytes, with zeros after them |
| Mai2Light.TrimEnd | src/protocol/mai2light/mai2light.cpp:831 | trimming the end removes exactly the trailing blanks: what remains is a prefix that does not end with a blank |
| Mai2Light.TrimStart | src/protocol/mai2light/mai2light.cpp:833 | trimming the start removes exactly the leading blanks: what remains is a suffix that does not start with a blank |
| Mai2Light.ClassifyStringCommand | src/protocol/mai2light/mai2light.cpp:827-872 | the trimmed line is "/help", "/status", "/version" or "/reset" exactly when that command is answered; any other line is answered as unknown with the trimmed line |
| Mai2Light.PaddingIgnored | src/protocol/mai2light/mai2light.cpp:829-833 | blanks around a command do not change what it is |
| Mai2Light.AnyResetOne | src/protocol/mai2light/mai2light.cpp:865-868 | a single parsed line resets the board exactly when it is classified as "/reset" |
| Mai2Light.AnyResetAppend | src/protocol/mai2light/mai2light.cpp:800-825 | a "/reset" occurs in two runs of lines together exactly when it occurs in one of them |
| Mai2Light.StringRunBounded | src/protocol/mai2light/mai2light.cpp:816-823 | the buffered line never holds more than 63 bytes, leaving room for the terminator |
| Mai2Light.StringRunBuffers | src/protocol/mai2light/mai2light.cpp:815-818 | bytes without a line end that fit are only buffered and hand nothing to the parser |
| Mai2Light.StringLine | src/protocol/mai2light/mai2light.cpp:807-818 | a fitting line followed by LF hands exactly that line, cut at its first zero byte, to the parser and leaves the buffer empty |
| Mai2Light.LineEnd | src/protocol/mai2light/mai2light.cpp:807-813 | an LF after a buffered non-empty line hands it, cut at its first zero byte, to the parser |
| Mai2Light.NulEndsLine | src/protocol/mai2light/mai2light.cpp:809-811 | a zero byte in a line ends the command there: the parser receives only the bytes before it |
| Mai2Light.ResetBeforeNul | src/protocol/mai2light/mai2light.cpp:809-811 | "/reset", a zero byte, "x" and LF hand "/reset" to the parser, which resets the board |
| Mai2Light.BoardAfterTwice | src/protocol/mai2light/mai2light.cpp:359-369 | a reset after a reset leaves the board as one reset does |
| Mai2Light.BoardAfterLines | src/protocol/mai2light/mai2light.cpp:800-825 | the board after two runs of lines, one after the other, is the board after both runs together |
| Mai2Light.Mai2Light.constructor | src/protocol/mai2light/mai2light.cpp:46-75 | a new board has every LED at its default status, a zeroed EEPROM, fade on at 100 ms, brightness 255 and an empty command buffer |
| Mai2Light.Mai2Light.SetLedColor | src/protocol/mai2light/mai2light.cpp:137-157 | the call succeeds exactly when initialised and the index is below the LED count; with fading it records the fade start and target for that LED only, otherwise it writes the colour of that LED only |
| Mai2Light.Mai2Light.SetLedBrightness | src/protocol/mai2light/mai2light.cpp:165-172 | the brightness of that LED only changes, and only when initialised with an index in range |
| Mai2Light.Mai2Light.SetAllLeds | src/protocol/mai2light/mai2light.cpp:175-185 | the call succeeds exactly when initialised, and a refused call changes nothing; with fading every LED keeps its colour, its fade start becomes its old colour and its fade target the colour, and fading is on, started now unless it already was; without fading every LED takes the colour directly and the fade arrays, flag and start time stay |
| Mai2Light.Mai2Light.SetGlobalBrightness | src/protocol/mai2light/mai2light.cpp:188-201 | once initialised the global brightness is stored and every LED takes it |
| Mai2Light.Mai2Light.GetLedStatus | src/protocol/mai2light/mai2light.cpp:210-217 | the status of an LED in range is returned; an index out of range fails |
| Mai2Light.Mai2Light.ClearAllLeds | src/protocol/mai2light/mai2light.cpp:372-383 | every LED becomes black with brightness 0 |
| Mai2Light.Mai2Light.ResetBoard | src/protocol/mai2light/mai2light.cpp:359-369 | the LEDs are cleared and node, baud rate, brightness and fade settings return to their defaults |
| Mai2Light.Mai2Light.SetEepromData | src/protocol/mai2light/mai2light.cpp:323-338 | a write succeeds exactly with data, a non-zero length and a range inside the EEPROM; it then replaces exactly that range, and otherwise changes nothing |
| Mai2Light.Mai2Light.GetEepromData | src/protocol/mai2light/mai2light.cpp:341-356 | a read succeeds under the same checks and returns the bytes of that range, so a read after a write returns what was written |
| Mai2Light.Mai2Light.SendPacket | src/protocol/mai2light/mai2light.cpp:413-438 | once initialised the packet is sent as one frame: sync, node, length, command, data, checksum |
| Mai2Light.Mai2Light.ParseStringCommand | src/protocol/mai2light/mai2light.cpp:827-872 | the line is logged as parsed; "/reset" clears every LED and restores node 0, the default baud rate, brightness 255, a 100 ms fade and fading on; every other command leaves the LEDs and configuration unchanged |
| Mai2Light.Mai2Light.EndStringLine | src/protocol/mai2light/mai2light.cpp:807-813 | a line end empties the buffer and hands a non-empty buffered line, cut at its first zero byte, to the parser; nothing is parsed for an empty buffer |
| Mai2Light.Mai2Light.BufferStringByte | src/protocol/mai2light/mai2light.cpp:816-823 | the byte is appended while fewer than 63 are held; otherwise the buffer is emptied |
| Mai2Light.Mai2Light.ProcessStringByte | src/protocol/mai2light/mai2light.cpp:801-823 | one byte is one `StringStep`: CR or LF hands the buffered line, cut at its first zero byte, to the parser and empties the buffer; another byte is buffered, or the buffer is emptied when 63 bytes are held; the board is reset exactly when the handed line is "/reset" |
| Mai2Light.Mai2Light.ProcessStringCommands | src/protocol/mai2light/mai2light.cpp:800-825 | the buffer ends as `StringRun` of the input leaves it, the parser receives exactly the lines `StringRun` yields, in order, and the board is reset exactly when one of them is "/reset" |
| Common.CString | src/protocol/mai2light/mai2light.cpp:809-810 | the text `std::string(char*)` builds is a prefix of the buffer without zero bytes, ending at the first zero byte or at the end |
| Common.CStringWhole | src/protocol/mai2light/mai2light.cpp:809-810 | a buffer without zero bytes is taken whole |
| Common.CStringCut | src/protocol/mai2light/mai2light.cpp:809-810 | a zero byte after zero-free text cuts the string right there, whatever follows |
| LightManager.FindByName | src/service/light_manager/light_manager.cpp:251-254 | the search finds no position exactly when no mapping has the name; otherwise it finds the first mapping with that name |
| LightManager.RangeBitmap | src/service/light_manager/light_manager.cpp:1185-1199 | the combined bitmap fits 32 bits |
| LightManager.RangeBitmapBits | src/service/light_manager/light_manager.cpp:1185-1199 | a pixel is in the range's bitmap exactly when some enabled mapping overlapping the range has that pixel |
| LightManager.MappingForIndex | src/service/light_manager/light_manager.cpp:1115-1158 | an index of 32 or more maps to nothing; a found mapping is enabled and holds the index; when nothing is found no enabled mapping holds it |
| LightManager.Le32RoundTrip | src/service/light_manager/light_manager.cpp:353-357 | the bitmap's four little-endian bytes, put back together as the loader does, give the bitmap back |
| LightManager.EncodeRecord | src/service/light_manager/light_manager.cpp:341-361 | a saved record takes the capped name length plus eight bytes |
| LightManager.DecodeEncodedRecords | src/service/light_manager/light_manager.cpp:341-427 | saved records are read back as themselves, one after another |
| LightManager.DecodeRecordAt | src/service/light_manager/light_manager.cpp:394-427 | a record whose name fits the one-byte length is read back as that mapping, and reading continues after it |
| LightManager.SaveLoadRoundTrip | src/service/light_manager/light_manager.cpp:323-435 | loading what was saved gives back the same mappings in the same order, when every name fits 255 bytes and the count fits 16 bits |
| LightManager.TruncatedLoad | src/service/light_manager/light_manager.cpp:392-428 | a saved string cut short inside a record loads the complete records before it and nothing more |
| LightManager.ByteSumAppend | src/service/light_manager/light_manager.cpp:1244-1250 | the 8-bit byte sum of two pieces is the sum of their sums modulo 256 |
| LightManager.CalculateChecksum | src/service/light_manager/light_manager.cpp:1244-1250 | the checksum is the sum of the first `length` bytes modulo 256 |
| LightManager.Escape | src/service/light_manager/light_manager.cpp:815-833 | escaped output never contains the SYNC byte |
| LightManager.UnescapeEscape | src/service/light_manager/light_manager.cpp:618-633 | the receive filter's unescaping undoes the send side's escaping |
| LightManager.AckFrame | src/service/light_manager/light_manager.cpp:808-837 | an acknowledgement frame starts with SYNC and SYNC appears nowhere else in it |
| LightManager.AckFrameDecodes | src/service/light_manager/light_manager.cpp:783-837 | a receiver that drops the SYNC and unescapes recovers the acknowledgement body followed by its checksum |
| LightManager.ParsePacket | src/service/light_manager/light_manager.cpp:672-708 | a packet parses exactly when it has four header bytes, its data length fits the data union and all announced data bytes are present; the data then starts with those bytes |
| LightManager.Assemble | src/service/light_manager/light_manager.cpp:640-661 | consuming a completed packet only shortens the buffer |
| LightManager.AssembleFrame | src/service/light_manager/light_manager.cpp:636-661 | a frame whose last byte is the checksum of the rest is taken out of the buffer whole and parses as its fields |
| LightManager.ExpectedLengthWraps | src/service/light_manager/light_manager.cpp:643 | a length byte of 252 or more makes the 8-bit expected length smaller than the header, so the checksum index falls outside the packet |
| LightManager.AssembleInBounds | src/service/light_manager/light_manager.cpp:640-661 | with the expected length computed without wrap-around, every index read lies inside the buffered bytes and a completed packet is removed whole |
| LightManager.LoadGuardAdmitsShortRecord | src/service/light_manager/light_manager.cpp:413-424 | a record whose enabled byte is missing passes the six-byte guard as written, so the enabled byte would be read one past the end |
| LightManager.LightManager.constructor | src/service/light_manager/light_manager.cpp:92-112 | a new manager is not initialised, has no mappings, an empty receive buffer and a zeroed EEPROM; whether a UART is attached is a parameter, false as written since `uart_hal_` starts null and is never set |
| LightManager.LightManager.AddRegionMapping | src/service/light_manager/light_manager.cpp:228-264 | a mapping is appended exactly when initialised, named, with start not after end, end below 32 and the name not already present; otherwise nothing changes; names stay unique |
| LightManager.LightManager.RemoveRegionMapping | src/service/light_manager/light_manager.cpp:266-284 | removal succeeds exactly when initialised and the name is present, and then erases only the first mapping with that name; with unique names the name is gone afterwards |
| LightManager.LightManager.GetRegionMapping | src/service/light_manager/light_manager.cpp:286-298 | a mapping is returned exactly when the name is present, and it is the first with that name |
| LightManager.LightManager.GetRegionNames | src/service/light_manager/light_manager.cpp:300-306 | the names of all mappings in order |
| LightManager.LightManager.EnableRegionMapping | src/service/light_manager/light_manager.cpp:308-321 | the flag of the first mapping with the name is set and nothing else changes; an absent name fails |
| LightManager.LightManager.GetBitmapForRange | src/service/light_manager/light_manager.cpp:1185-1199 | the loop computes the range bitmap |
| LightManager.LightManager.WriteRecord | src/service/light_manager/light_manager.cpp:341-361 | the bytes written for one mapping are its serialised record: capped name length, name, start, end, little-endian bitmap and enabled flag |
| LightManager.LightManager.SaveRegionMappings | src/service/light_manager/light_manager.cpp:323-367 | once initialised the stored string is the serialisation of the mappings; the result is whether the configuration was persisted |
| LightManager.LightManager.ResetRegionMappings | src/service/light_manager/light_manager.cpp:437-474 | once initialised the mappings become the three defaults and are saved |
| LightManager.LightManager.ReadRecord | src/service/light_manager/light_manager.cpp:394-427 | one record is read in the source's field order; it is refused when its seven fixed bytes do not fit, the corrected guard, where the source's six-byte guard reads one byte past the end (Findings row 1) |
| LightManager.LightManager.ReadRecords | src/service/light_manager/light_manager.cpp:392-428 | the record loop yields the decoding of the stored string: up to the stored count of records, stopping at the first whose seven fixed bytes do not fit (the corrected guard, Findings row 1) |
| LightManager.LightManager.LoadRegionMappings | src/service/light_manager/light_manager.cpp:369-435 | an empty stored string restores the defaults, one byte fails and leaves the mappings, and otherwise the mappings become the decoded records, read with the corrected seven-byte guard (Findings row 1) |
| LightManager.LightManager.HandleEepromCommand | src/service/light_manager/light_manager.cpp:1075-1112 | uninitialised the EEPROM is unchanged and an Invalid/Invalid acknowledgement goes out; once initialised a set writes the addressed byte only and is acknowledged Ok/Ok, and a get is acknowledged Ok/Ok carrying the byte; every acknowledgement is sent only when a UART is attached |
| LightManager.LightManager.SendAck | src/service/light_manager/light_manager.cpp:783-840 | without a UART nothing is sent; with one exactly one frame is sent: SYNC followed by the escaped acknowledgement and its checksum |
| LightManager.LightManager.Acks | src/service/light_manager/light_manager.cpp:783-787 | one `send_ack` writes exactly one frame when a UART is attached and none otherwise; every frame starts with SYNC and has no other SYNC |
| LightManager.LightManager.HandleCommand | src/service/light_manager/light_manager.cpp:710-781 | as `Dispatched` states it: a packet for another node changes nothing; one for this node or for broadcast is recorded; the EEPROM commands send their Invalid/Invalid or Ok/Ok acknowledgements (a get carrying the byte) and only a set on an initialised board writes the EEPROM; the response controls are acknowledged Ok/Ok, and a command outside the switch (SetDc and SetDcUpdate included) is answered Invalid/CommandUnknown; acknowledgements go out only with a UART attached |
| LightManager.LightManager.ProcessReceivedByte | src/service/light_manager/light_manager.cpp:606-668 | without a UART nothing changes; otherwise SYNC empties the buffer, an escaped byte is restored, a full buffer is reset, and any other byte is appended, with a completed packet removed; a packet that passes the checksum and parses is dispatched with every effect `HandleCommand` has on the EEPROM, the acknowledgements and the record of handled packets; no other byte sends anything or touches the EEPROM |
| LightManager.LightManager.CheckAndDispatch | src/service/light_manager/light_manager.cpp:646-656 | a complete packet is dispatched exactly when the sum of all but its last byte equals that byte and it parses, and then has every effect `HandleCommand` has; otherwise nothing is sent, recorded or written |
| LightManager.LightManager.ShiftOut | src/service/light_manager/light_manager.cpp:655-657 | the memmove drops exactly the first n buffered bytes |
| ConfigTypes.TypeMax | src/service/config_manager/config_types.h:54-79 | each integer type's upper limit lies above its lower limit, so the default bounds form a non-empty range |
| ConfigTypes.Clamped | src/service/config_manager/config_types.h:93-118 | the clamped value is the value, the lower or the upper bound; it lies in a well-formed range, is unchanged inside it, and is the upper bound when the range is inverted |
| ConfigTypes.ClampIdempotent | src/service/config_manager/config_types.h:93-118 | clamping a clamped value changes nothing |
| ConfigTypes.ClampInType | src/service/config_manager/config_types.h:93-118 | clamping keeps a value inside its integer type |
| ConfigTypes.ConfigValue.Bool | src/service/config_manager/config_types.h:51-52 | a boolean value has no range |
| ConfigTypes.ConfigValue.Text | src/service/config_manager/config_types.h:89-90 | a string value has no range |
| ConfigTypes.ConfigValue.Integer | src/service/config_manager/config_types.h:54-79 | a range exists exactly when a bound differs from the type's limit, and the stored value is clamped into it |
| ConfigTypes.ConfigValue.ClampValue | src/service/config_manager/config_types.h:93-118 | only a ranged integer value moves, into its range; the type and the bounds stay |
| ConfigTypes.ConfigValue.SetValue | src/service/config_manager/config_types.h:123-149 | a value of the value's own type is stored clamped; one of another type changes nothing |
| ConfigTypes.ConfigValue.CopyRangeFrom | src/service/config_manager/config_types.h:159-167 | the range flag travels only between values of the same type, the bounds only when the other value has a range, and the value itself never changes |
| ConfigManager.DecodeBool | src/service/config_manager/config_manager.cpp:986-990 | a boolean decodes exactly from one byte |
| ConfigManager.DecodeU8 | src/service/config_manager/config_manager.cpp:992-996 | a uint8 decodes exactly from one byte |
| ConfigManager.DecodeU16 | src/service/config_manager/config_manager.cpp:998-1002 | a uint16 decodes exactly from two bytes |
| ConfigManager.DecodeU32 | src/service/config_manager/config_manager.cpp:1004-1009 | a uint32 decodes exactly from four bytes |
| ConfigManager.DecodeString | src/service/config_manager/config_manager.cpp:1021-1024 | every byte sequence decodes as a string |
| ConfigManager.BoolRoundTrip | src/service/config_manager/config_manager.cpp:954-990 | a boolean written by `to_bytes` reads back as itself |
| ConfigManager.U8RoundTrip | src/service/config_manager/config_manager.cpp:958-996 | a uint8 reads back as itself |
| ConfigManager.U16RoundTrip | src/service/config_manager/config_manager.cpp:962-1002 | a uint16 written low byte first reads back as itself |
| ConfigManager.U32RoundTrip | src/service/config_manager/config_manager.cpp:966-1009 | a uint32 written low byte first reads back as itself |
| ConfigManager.StringRoundTrip | src/service/config_manager/config_manager.cpp:981-1024 | a string reads back as itself |
| ConfigManager.U16Onto | src/service/config_manager/config_manager.cpp:962-1002 | every two-byte sequence is the encoding of the value it decodes to |
| ConfigManager.U32Onto | src/service/config_manager/config_manager.cpp:966-1009 | every four-byte sequence is the encoding of the value it decodes to |
| ConfigManager.ValidateKey | src/service/config_manager/config_manager.cpp:754-767 | a key is valid exactly when it has 1 to 64 characters, each a letter, a digit, a dot, an underscore or a hyphen |
| ConfigManager.EncodingsHaveTheirTypeSize | src/service/config_manager/config_manager.cpp:784-804 | the encoding of a value of the item's type always passes the type check |
| ConfigManager.WrittenReadsBack | src/service/config_manager/config_manager.cpp:352-355 | after a write the item holds the written bytes, no key is added or removed and no other item changes |
| ConfigManager.Store.constructor | src/service/config_manager/config_manager.cpp:87-95 | a new store is uninitialised, empty and has zero statistics |
| ConfigManager.Store.Has | src/service/config_manager/config_manager.cpp:224-226 | a key is known exactly when it is registered |
| ConfigManager.Store.Register | src/service/config_manager/config_manager.cpp:196-211 | a valid key is registered, replacing any earlier item, with the item's key set to it; an invalid key changes nothing |
| ConfigManager.Store.Unregister | src/service/config_manager/config_manager.cpp:213-222 | removal succeeds exactly when the key was present, and only that key goes |
| ConfigManager.Store.SetValue | src/service/config_manager/config_manager.cpp:328-361 | a write succeeds exactly when initialised, the key is known and writable and the data passes the type and range checks; it then stores the data alone and counts the write; a failed check counts a validation error; anything else changes nothing |
| ConfigManager.Store.GetValue | src/service/config_manager/config_manager.cpp:363-380 | a read succeeds exactly when initialised and the key is known and readable, returns the stored bytes and counts the read |
| ConfigManager.Store.SetU16 | src/service/config_manager/config_manager.cpp:271-273 | a successful typed write leaves bytes that decode to the value written |
| ConfigManager.Store.GetU16 | src/service/config_manager/config_manager.cpp:275-281 | a typed read returns the decoding of the stored bytes and changes no item |
| ConfigManager.Store.ResetToDefault | src/service/config_manager/config_manager.cpp:383-396 | a known key gets its default bytes back and is marked dirty; an unknown key fails and changes nothing |
| ConfigManager.Store.ResetAllToDefault | src/service/config_manager/config_manager.cpp:398-408 | every item gets its default bytes back and is marked dirty, and no key is added or removed |
| InputKeys.Wrap8 | src/service/input_manager/input_manager.cpp:310 | `key_count` arithmetic wraps at 256 and is exact inside the byte range |
| InputKeys.FindGpioFrom | src/service/input_manager/input_manager.cpp:300-303 | the search finds the first entry for the GPIO, and finds none exactly when no entry has it |
| InputKeys.SlotFrom | src/service/input_manager/input_manager.cpp:305-313 | the slot search finds the first slot holding the key, and none exactly when no slot holds it |
| InputKeys.FindKeyFrom | src/service/input_manager/input_manager.cpp:330-340 | the removal search finds the first entry for the GPIO whose slots hold the key, and none exactly when no entry for the GPIO holds it |
| InputKeys.Erase | src/service/input_manager/input_manager.cpp:353 | `erase` removes exactly the element at the position and keeps the order of the rest |
| InputKeys.AddKey | src/service/input_manager/input_manager.cpp:297-326 | an add fails exactly when the GPIO's entry has no free slot, and then changes nothing; a new GPIO gets a new entry at the end; on success the GPIO's entry holds the key |
| InputKeys.RemoveKey | src/service/input_manager/input_manager.cpp:328-362 | a removal succeeds exactly when some entry for the GPIO holds the key; a failure changes nothing, and success keeps or erases one entry |
| InputKeys.ClearKey | src/service/input_manager/input_manager.cpp:364-380 | clearing succeeds exactly when an entry for the GPIO exists, and erases one entry |
| InputKeys.Occupied | src/service/input_manager/input_manager.cpp:305-313 | at most three slots are occupied |
| InputKeys.OccupiedUpdate | src/service/input_manager/input_manager.cpp:308-311 | writing one slot changes the number of occupied slots by what left and what came |
| InputKeys.FindGpioIs | src/service/input_manager/input_manager.cpp:300-303 | the entry found for the GPIO is the first one carrying it |
| InputKeys.EraseKeepsGood | src/service/input_manager/input_manager.cpp:353 | erasing an entry keeps every count equal to the keys held and one entry per GPIO |
| InputKeys.AddKeepsGood | src/service/input_manager/input_manager.cpp:297-326 | adding a real key keeps every count equal to the keys held and one entry per GPIO |
| InputKeys.RemoveKeepsGood | src/service/input_manager/input_manager.cpp:328-362 | removing a real key keeps the table good: the count never wraps and an emptied entry is erased |
| InputKeys.AddThenRemove | src/service/input_manager/input_manager.cpp:297-362 | adding a key to a GPIO without an entry and removing it again gives back the table |
| InputKeys.RemoveLastKey | src/service/input_manager/input_manager.cpp:340-355 | removing the last key of a GPIO's entry leaves no entry for that GPIO |
| InputKeys.RemoveNoneDropsEntry | src/service/input_manager/input_manager.cpp:336-355 | removing KEY_NONE matches a free slot and lowers the count, so an entry holding one real key is erased |
| InputKeys.ClearRemovesGpio | src/service/input_manager/input_manager.cpp:364-380 | clearing a GPIO of a good table leaves a good table with no entry for it |
| InputKeys.LogicalKeys.constructor | src/service/input_manager/input_manager.cpp:29-48 | the table starts empty |
| InputKeys.LogicalKeys.Add | src/service/input_manager/input_manager.cpp:297-326 | the loops compute the add's result and new table |
| InputKeys.LogicalKeys.Remove | src/service/input_manager/input_manager.cpp:328-362 | the loops compute the removal's result and new table |
| InputKeys.LogicalKeys.Clear | src/service/input_manager/input_manager.cpp:364-380 | the search computes the clear's result and new table |
| InputKeys.LogicalKeys.ClearAll | src/service/input_manager/input_manager.cpp:2035-2039 | the table becomes empty |
| InputManager.ChannelCap | src/service/input_manager/input_manager.cpp:160 | the channel cap is 24 or the low byte of the supported count, never more than 24 |
| InputManager.FindMask | src/service/input_manager/input_manager.cpp:1216-1227 | the search finds the first registered slot carrying the mask, and none exactly when no registered slot carries it |
| InputManager.Fresh | src/service/input_manager/input_manager.cpp:157-170 | a new slot carries the board's mask, is connected, has the capped channel count and the default sensitivity on every channel below the cap |
| InputManager.Registered | src/service/input_manager/input_manager.cpp:103-180 | registration fails exactly for a missing board, a full table or a zero mask, and then changes nothing |
| InputManager.RegisterKeepsMasksUnique | src/service/input_manager/input_manager.cpp:103-180 | registration keeps one slot per mask and never a zero mask |
| InputManager.RegisterKnownMask | src/service/input_manager/input_manager.cpp:126-151 | a board whose mask is registered is only marked connected and listed; nothing else in the table changes |
| InputManager.RegisterNewMask | src/service/input_manager/input_manager.cpp:152-179 | a new mask takes the next slot, with at most 24 channels, exactly those enabled, each at the default sensitivity |
| InputManager.RegisterTwice | src/service/input_manager/input_manager.cpp:107-151 | as written, registering a board twice is registering it once while the table has room, but a board that filled the eighth slot is refused the second time |
| InputManager.FullTableRefusesKnownBoard | src/service/input_manager/input_manager.cpp:107-151 | as written, with eight boards registered a known board that reconnects is refused and stays disconnected |
| InputManager.RegisteredIntended | src/service/input_manager/input_manager.cpp:103-180 | with the known-mask check first, registration fails exactly for a missing board, a zero mask, or a full table without that mask |
| InputManager.IntendedAgreesBelowEight | src/service/input_manager/input_manager.cpp:103-180 | both orders of the checks agree whenever the table has room |
| InputManager.RegisterTwiceIntended | src/service/input_manager/input_manager.cpp:103-180 | with the intended order a known board is always reconnected, and registering a board twice is registering it once |
| InputManager.Sensitivity | src/service/input_manager/input_manager.cpp:769-773 | an unregistered mask reads the default sensitivity 15 |
| InputManager.WithSensitivity | src/service/input_manager/input_manager.cpp:749-767 | setting a sensitivity keeps the table's shape |
| InputManager.SetThenGetSensitivity | src/service/input_manager/input_manager.cpp:749-773 | a set is read back by a get of the same channel; every other channel reads as before; a set that does not apply changes no reading |
| InputManager.SameMasks | src/service/input_manager/input_manager.cpp:1216-1227 | tables with the same masks find the same slots |
| InputManager.HidSlot | src/service/input_manager/input_manager.cpp:809-830 | the slot chosen is the first already holding the channel's address, else the first free one, else none when neither exists |
| InputManager.Position | src/service/input_manager/input_manager.cpp:811-818 | the search finds the first index holding the value, and none exactly when no index holds it |
| InputManager.WithHid | src/service/input_manager/input_manager.cpp:833-837 | storing an HID mapping keeps ten slots |
| InputManager.HidStoreMeaning | src/service/input_manager/input_manager.cpp:802-842 | after storing, the address is present when it was present or a slot was free; it is held once when newly stored; storing it again changes nothing |
| InputManager.DeviceTable.constructor | src/service/input_manager/input_manager.cpp:29-48 | an empty table with no boards listed |
| InputManager.DeviceTable.Register | src/service/input_manager/input_manager.cpp:103-180 | the result, the slots, the count and the board list are those of the registration |
| InputManager.DeviceTable.SetSensitivity | src/service/input_manager/input_manager.cpp:749-767 | the table gets the set sensitivity; a board with the mask receives the value capped at 99 exactly when the set applies |
| InputManager.DeviceTable.SetHidMapping | src/service/input_manager/input_manager.cpp:802-842 | the HID slots of a channel below the cap of a registered mask get the channel's address; anything else leaves the table unchanged |
| InputManager.BindingArea | src/service/input_manager/input_manager.cpp:1559-1567 | indices 0 to 33 name the areas 1 to 34, and every other index is unused |
| InputManager.BindingAreaOrder | src/service/input_manager/input_manager.cpp:1559-1567 | area a is the one at index a - 1, and no two indices share an area |
| InputManager.DelaySlot | src/service/input_manager/input_manager.cpp:2176-2177 | every step of the delayed read looks at a row of the buffer |
| InputManager.DelayedFrom | src/service/input_manager/input_manager.cpp:2174-2187 | the delayed read returns a stored row stamped at or before the target, and nothing exactly when every stored row is later |
| InputManager.StoresFromEmpty | src/service/input_manager/input_manager.cpp:2127-2133 | after k stores into an empty buffer of n rows the head is k mod n and the count is min(k, n) |
| InputManager.StoreThenRead | src/service/input_manager/input_manager.cpp:2126-2187 | a row just stored is the newest and is found by a read whose target is not earlier than its stamp |
| InputManager.DelayBuffer.constructor | src/service/input_manager/input_manager.cpp:29-48 | an empty buffer with no delay |
| InputManager.DelayBuffer.SetTouchResponseDelay | src/service/input_manager/input_manager.cpp:2048-2060 | the delay is capped at 100 ms and the buffer is emptied |
| InputManager.DelayBuffer.Store | src/service/input_manager/input_manager.cpp:2126-2133 | the state is stored at the head, which advances cyclically while the count grows up to the size |
| InputManager.DelayBuffer.DelayedState | src/service/input_manager/input_manager.cpp:2136-2192 | without a delay the live state is returned; otherwise the newest stored state stamped at or before now minus the delay, or the zero state and failure |
| InputManager.SlotStep | src/service/input_manager/input_manager.cpp:2176-2177 | stepping the read index back one row reaches the next row of the search |
| InputManager.Tally | src/service/input_manager/input_manager.cpp:2308-2325 | the progress sum is at most 255 per calibrating board |
| InputManager.ProgressMeaning | src/service/input_manager/input_manager.cpp:2308-2335 | no calibrating board gives 255; otherwise the result is the average progress, and boards that all report the same progress give that progress |
| InputManager.CalibrationProgress | src/service/input_manager/input_manager.cpp:2308-2335 | the loop computes the calibration progress |
| InputMapping.WithTable | src/service/input_manager/input_mapping_manager.cpp:208-269 | replacing one map leaves the other two as they were |
| InputMapping.Insert | src/service/input_manager/input_mapping_manager.cpp:16-40 | a mapping is stored exactly when no other map holds its key; it then replaces its own map's entry for the key and the other maps do not change; otherwise nothing changes |
| InputMapping.AddSerial | src/service/input_manager/input_mapping_manager.cpp:16-40 | a serial mapping is accepted exactly when the key is valid, the area is used and neither the HID nor the keyboard map holds the key |
| InputMapping.AddHid | src/service/input_manager/input_mapping_manager.cpp:80-104 | an HID mapping is accepted exactly when the key is valid, both coordinates lie in [0, 1] and neither the serial nor the keyboard map holds the key |
| InputMapping.AddKeyboard | src/service/input_manager/input_mapping_manager.cpp:144-168 | a keyboard mapping is accepted exactly when the key is valid, the key code is not KEY_NONE and neither the serial nor the HID map holds the key |
| InputMapping.Add | src/service/input_manager/input_mapping_manager.cpp:16-168 | a mapping value is accepted exactly when it is acceptable and no other map holds its key |
| InputMapping.Remove | src/service/input_manager/input_mapping_manager.cpp:42-186 | a removal succeeds exactly when the map holds the key, removes only that key, and leaves the other maps |
| InputMapping.GetAfterAddAndRemove | src/service/input_manager/input_mapping_manager.cpp:16-194 | a get after a successful add returns what was added; a get after a removal returns the default |
| InputMapping.AddKeepsGood | src/service/input_manager/input_mapping_manager.cpp:16-168 | adding keeps every key in at most one map |
| InputMapping.RemoveKeepsGood | src/service/input_manager/input_mapping_manager.cpp:42-186 | removing keeps every key in at most one map |
| InputMapping.AddThenRemove | src/service/input_manager/input_mapping_manager.cpp:16-186 | adding to a key that no map holds and removing it again gives back the maps |
| InputMapping.DropDevice | src/service/input_manager/input_mapping_manager.cpp:217-250 | a map without a device keeps exactly the entries of the other devices, unchanged |
| InputMapping.ClearDeviceMeaning | src/service/input_manager/input_mapping_manager.cpp:217-250 | clearing a device keeps the maps good, leaves that device unmapped and every other device's mappings as they were |
| InputMapping.ClearType | src/service/input_manager/input_mapping_manager.cpp:252-268 | clearing a type empties that map and leaves the others |
| InputMapping.ClearTypeKeepsGood | src/service/input_manager/input_mapping_manager.cpp:252-268 | clearing a type keeps every key in at most one map |
| InputMapping.MappingTypeOf | src/service/input_manager/input_mapping_manager.cpp:286-302 | the reported type is one whose map holds the key, or SERIAL when no map does |
| InputMapping.ProcessTouchMeaning | src/service/input_manager/input_mapping_manager.cpp:318-342 | on good maps a touch reaches exactly the mapping its key has, of the type reported for it, with the press state passed on, and nothing when it has none |
| InputMapping.AddAllStores | src/service/input_manager/input_mapping_manager.cpp:368-389 | adding a list of acceptable entries of one type whose keys the other maps do not hold stores each of them |
| InputMapping.CollectListing | src/service/input_manager/input_mapping_manager.cpp:68-78 | a listing of a map collects back to the map |
| InputMapping.ExportImportRoundTrip | src/service/input_manager/input_mapping_manager.cpp:359-389 | importing what was exported from good maps gives back the maps |
| InputMapping.ImportStage | src/service/input_manager/input_mapping_manager.cpp:368-389 | importing one exported list into maps where that type's map is empty restores that map |
| InputMapping.ListedEntries | src/service/input_manager/input_mapping_manager.cpp:68-206 | the entries listed from a good map are of its type, acceptable, and held by no other map |
| InputMapping.DropDeviceEntries | src/service/input_manager/input_mapping_manager.cpp:217-250 | the erase-while-iterating loop removes exactly the device's entries |
| InputMapping.Listing | src/service/input_manager/input_mapping_manager.cpp:68-206 | the listing loop lists every entry of the map once |
| InputMapping.MappingManager.constructor | src/service/input_manager/input_mapping_manager.cpp:5-9 | a new manager has three empty maps |
| InputMapping.MappingManager.AddSerialMapping | src/service/input_manager/input_mapping_manager.cpp:16-40 | the result and the new maps are those of the serial add |
| InputMapping.MappingManager.AddHidMapping | src/service/input_manager/input_mapping_manager.cpp:80-104 | the result and the new maps are those of the HID add |
| InputMapping.MappingManager.AddKeyboardMapping | src/service/input_manager/input_mapping_manager.cpp:144-168 | the result and the new maps are those of the keyboard add |
| InputMapping.MappingManager.RemoveMapping | src/service/input_manager/input_mapping_manager.cpp:42-186 | the result and the new maps are those of the removal |
| InputMapping.MappingManager.ClearAll | src/service/input_manager/input_mapping_manager.cpp:208-215 | all three maps become empty |
| InputMapping.MappingManager.ClearDeviceMappings | src/service/input_manager/input_mapping_manager.cpp:217-250 | the maps lose exactly the device's entries |
| InputMapping.MappingManager.ClearMappingsByType | src/service/input_manager/input_mapping_manager.cpp:252-268 | the map of that type becomes empty |
| InputMapping.MappingManager.ExportConfig | src/service/input_manager/input_mapping_manager.cpp:359-366 | each exported list holds every entry of its map once |
| InputMapping.MappingManager.AddEntry | src/service/input_manager/input_mapping_manager.cpp:374-386 | one imported entry goes through the add of its type |
| InputMapping.MappingManager.AddEntries | src/service/input_manager/input_mapping_manager.cpp:374-386 | the entries of one imported list are added in order |
| InputMapping.MappingManager.ImportConfig | src/service/input_manager/input_mapping_manager.cpp:368-389 | everything is cleared, then the three lists are added |
| InputDevices.NewEntry | src/service/input_manager/input_device_manager.h:75-80 | a new entry carries its address, is not initialised, has no enabled channel and no touch |
| InputDevices.FindFrom | src/service/input_manager/input_device_manager.cpp:267-274 | the search finds the first entry with the address, and none exactly when no entry has it |
| InputDevices.Find | src/service/input_manager/input_device_manager.cpp:267-283 | `findDevice` finds the first entry with the address, and none exactly when no entry has it |
| InputDevices.Registered | src/service/input_manager/input_device_manager.cpp:17-39 | registration succeeds exactly for a device that is present at an address not yet registered, and then appends a new entry; otherwise nothing changes |
| InputDevices.Unregistered | src/service/input_manager/input_device_manager.cpp:42-68 | unregistration succeeds exactly when the address is registered and then erases one entry; otherwise nothing changes |
| InputDevices.Initialized | src/service/input_manager/input_device_manager.cpp:105-130 | only the entry with the address changes; an unknown address fails; success leaves that entry initialised |
| InputDevices.Deinitialized | src/service/input_manager/input_device_manager.cpp:132-153 | the result says whether the address is registered; only that entry changes, and an initialised one loses its initialised flag, its enabled channels and its touch |
| InputDevices.StatusOf | src/service/input_manager/input_device_manager.cpp:169-180 | an unregistered address reads as an empty status carrying the address |
| InputDevices.SetBit | src/service/input_manager/input_device_manager.cpp:200-215 | the written mask has the channel's bit as requested and every other bit as before, and stays a 32-bit word |
| InputDevices.ChannelSet | src/service/input_manager/input_device_manager.cpp:200-215 | a channel change succeeds exactly for a registered, initialised entry; a failure changes nothing |
| InputDevices.Events | src/service/input_manager/input_device_manager.cpp:243-265 | at most one event per entry is raised |
| InputDevices.RegisterThenUnregister | src/service/input_manager/input_device_manager.cpp:17-68 | registering a new address and unregistering it restores the registry |
| InputDevices.RegisterKeepsGood | src/service/input_manager/input_device_manager.cpp:17-39 | registration keeps addresses unique |
| InputDevices.UnregisterRemoves | src/service/input_manager/input_device_manager.cpp:42-68 | after unregistering, the address is gone and addresses stay unique |
| InputDevices.SetThenReadChannel | src/service/input_manager/input_device_manager.cpp:200-225 | a successful channel change reads back as set, and every other channel reads as before |
| InputDevices.FindAfterUpdate | src/service/input_manager/input_device_manager.cpp:267-274 | replacing the found entry with one of the same address leaves the search where it was |
| InputDevices.InitKeepsGood | src/service/input_manager/input_device_manager.cpp:105-130 | initialising keeps addresses unique |
| InputDevices.SetChannelKeepsGood | src/service/input_manager/input_device_manager.cpp:200-215 | changing a channel keeps addresses unique |
| InputDevices.DeinitThenSetFails | src/service/input_manager/input_device_manager.cpp:132-225 | a deinitialised entry refuses channel changes, reads no enabled channel and no touch |
| InputDevices.DeinitKeepsGood | src/service/input_manager/input_device_manager.cpp:132-153 | deinitialising keeps addresses unique |
| InputDevices.UnknownAddressReadsEmpty | src/service/input_manager/input_device_manager.cpp:169-231 | an unregistered address reads as an empty status, no touch and no enabled channel |
| InputDevices.EventsMeaning | src/service/input_manager/input_device_manager.cpp:243-265 | one event is raised for each initialised entry whose reported state differs from the last one seen |
| InputDevices.InputDeviceManager.constructor | src/service/input_manager/input_device_manager.cpp:6-9 | the registry starts empty |
| InputDevices.InputDeviceManager.FindDevice | src/service/input_manager/input_device_manager.cpp:267-274 | the loop computes `findDevice` |
| InputDevices.InputDeviceManager.RegisterTouchSensor | src/service/input_manager/input_device_manager.cpp:17-39 | the result and the new registry are those of the registration |
| InputDevices.InputDeviceManager.UnregisterTouchSensor | src/service/input_manager/input_device_manager.cpp:42-68 | the result and the new registry are those of the unregistration |
| InputDevices.InputDeviceManager.UnregisterAllDevices | src/service/input_manager/input_device_manager.cpp:70-80 | the registry becomes empty |
| InputDevices.InputDeviceManager.RegisteredAddresses | src/service/input_manager/input_device_manager.cpp:88-98 | the addresses of all entries, in order |
| InputDevices.InputDeviceManager.IsDeviceRegistered | src/service/input_manager/input_device_manager.cpp:100-103 | an address is registered exactly when some entry has it |
| InputDevices.InputDeviceManager.InitializeDevice | src/service/input_manager/input_device_manager.cpp:105-130 | the result and the new registry are those of the initialisation |
| InputDevices.InputDeviceManager.DeinitializeDevice | src/service/input_manager/input_device_manager.cpp:132-153 | the result and the new registry are those of the deinitialisation |
| InputDevices.InputDeviceManager.DeinitializeAllDevices | src/service/input_manager/input_device_manager.cpp:162-167 | every entry ends deinitialised with no enabled channel and no touch, and the addresses stay |
| InputDevices.InputDeviceManager.GetDeviceStatus | src/service/input_manager/input_device_manager.cpp:169-180 | the status of the address's entry, or an empty one |
| InputDevices.InputDeviceManager.GetAllDeviceStatus | src/service/input_manager/input_device_manager.cpp:182-192 | the statuses of all entries, in order |
| InputDevices.InputDeviceManager.SetChannelEnabled | src/service/input_manager/input_device_manager.cpp:200-215 | the result and the new registry are those of the channel change |
| InputDevices.InputDeviceManager.IsChannelEnabled | src/service/input_manager/input_device_manager.cpp:217-225 | the channel's bit of the entry's mask, false for an unknown or uninitialised entry |
| InputDevices.InputDeviceManager.UpdateDeviceStates | src/service/input_manager/input_device_manager.cpp:243-265 | every entry is updated with its reported state, and exactly the events of the changed initialised entries are raised, in order |
| Hid.CharToKeycode | src/protocol/hid/hid.cpp:630-650 | letters of either case map to KEY_A onwards in alphabet order; exactly the letters, digits, space, newline, return, tab and backspace have a key |
| Hid.CharToModifier | src/protocol/hid/hid.cpp:652-667 | the left-shift modifier is returned exactly for capitals and the twenty shifted symbols, and none otherwise |
| Hid.KeyAndShiftIdentifyChar | src/protocol/hid/hid.cpp:630-667 | the key together with the shift modifier tells every letter and digit apart |
| Hid.DigitKeys | src/protocol/hid/hid.cpp:635-638 | the digit keys run from KEY_1 to KEY_0 in keyboard order |
| Hid.IndexOf | src/protocol/hid/hid.cpp:750-765 | the search finds the first slot holding the value, and none exactly when no slot holds it |
| Hid.AddKey | src/protocol/hid/hid.cpp:748-767 | a key already present succeeds without change; a new key takes one empty slot; a report without a free slot refuses it; the slot count stays six |
| Hid.RemoveKey | src/protocol/hid/hid.cpp:769-780 | removal succeeds exactly when the key is present, and then empties one slot that held it; otherwise nothing changes |
| Hid.AddKeyIdempotent | src/protocol/hid/hid.cpp:748-767 | adding a key twice is adding it once |
| Hid.AddThenRemoveKey | src/protocol/hid/hid.cpp:748-780 | pressing a new key and releasing it restores the report |
| Hid.FindContact | src/protocol/hid/hid.cpp:807-815 | the search finds the first slot in contact with the id, and none exactly when no such slot exists |
| Hid.FreeSlot | src/protocol/hid/hid.cpp:522-530 | the search finds the first slot not in contact, and none exactly when every slot is in contact |
| Hid.InContact | src/protocol/hid/hid.cpp:512-558 | at most ten contacts are in contact |
| Hid.InContactUpdate | src/protocol/hid/hid.cpp:512-558 | replacing one slot changes the number in contact by the difference |
| Hid.SetTouch | src/protocol/hid/hid.cpp:512-542 | setting fails exactly when the id is not in contact and no slot is free, and then changes nothing; on success the contact is in the report |
| Hid.ReleaseTouch | src/protocol/hid/hid.cpp:544-558 | releasing an id not in contact changes nothing |
| Hid.SetTouchKeepsGood | src/protocol/hid/hid.cpp:512-542 | the contact count stays the number of slots in contact |
| Hid.ReleaseTouchKeepsGood | src/protocol/hid/hid.cpp:544-558 | the contact count stays the number of slots in contact and never goes below zero |
| Hid.SetThenReleaseTouch | src/protocol/hid/hid.cpp:512-558 | a contact set and then released leaves no contact with that id |
| Hid.PressButton | src/protocol/hid/hid.cpp:393-401 | pressing sets the button's bits and keeps the others |
| Hid.ReleaseButton | src/protocol/hid/hid.cpp:403-411 | releasing clears the button's bits and keeps the others |
| Hid.PressThenRelease | src/protocol/hid/hid.cpp:393-411 | releasing a button after pressing it gives back the other buttons |
| Hid.HidReports.constructor | src/protocol/hid/hid.cpp:191-226 | the reports start cleared |
| Hid.HidReports.AddKeyToReport | src/protocol/hid/hid.cpp:748-767 | the loops compute the add's result and new report |
| Hid.HidReports.RemoveKeyFromReport | src/protocol/hid/hid.cpp:769-780 | the loop computes the removal's result and new report |
| Hid.HidReports.PressKey | src/protocol/hid/hid.cpp:281-296 | when ready, the modifier bits are ORed in and the key added; the call succeeds exactly when ready, the key fits and the report is sent |
| Hid.HidReports.ReleaseKey | src/protocol/hid/hid.cpp:298-306 | when ready the key is removed; the result is whether the report was sent |
| Hid.HidReports.ClearKeyboardReport | src/protocol/hid/hid.cpp:782-786 | the modifier and all six key slots are cleared |
| Hid.HidReports.PressMouseButton | src/protocol/hid/hid.cpp:393-401 | when ready the button is pressed and the result is the send's |
| Hid.HidReports.ReleaseMouseButton | src/protocol/hid/hid.cpp:403-411 | when ready the button is released and the result is the send's |
| Hid.HidReports.FindTouchPoint | src/protocol/hid/hid.cpp:807-815 | the loop computes the contact search |
| Hid.HidReports.SetTouchPoint | src/protocol/hid/hid.cpp:512-542 | when ready the contacts and count become those of the set |
| Hid.HidReports.ReleaseTouchPoint | src/protocol/hid/hid.cpp:544-558 | when ready the contacts and count become those of the release |
| Hid.HidReports.ClearTouchReport | src/protocol/hid/hid.cpp:817-822 | all ten contacts are cleared and the count is zero |
| HalUsb.Keycode | src/hal/usb/hal_usb.cpp:113-179 | exactly bit positions 1 to 61 of the table stand for a key |
| HalUsb.ByteCodes | src/hal/usb/hal_usb.cpp:183-192 | the codes gathered from one byte are real keys, at most one per bit looked at |
| HalUsb.Pressed | src/hal/usb/hal_usb.cpp:181-194 | the codes gathered from the bitmap are real keys, at most eight per byte |
| HalUsb.CodeOf | src/hal/usb/hal_usb.cpp:184-191 | a bit gives a key exactly when it is set and its position is in the table's key range |
| HalUsb.ByteCodesMeaning | src/hal/usb/hal_usb.cpp:183-192 | a key is gathered from a byte exactly when one of the bits looked at stands for it |
| HalUsb.SixKeys | src/hal/usb/hal_usb.cpp:109-110 | the boot report holds six key slots |
| HalUsb.SixKeysMeaning | src/hal/usb/hal_usb.cpp:104-197 | every key of the boot report was pressed; six are taken when six or more were pressed; an empty slot means no more keys were pressed |
| HalUsb.SixKeysSettled | src/hal/usb/hal_usb.cpp:181-182 | once six keys are found, later bits do not change the report |
| HalUsb.ScanPrefix | src/hal/usb/hal_usb.cpp:181-194 | the scan stopped inside a byte has seen a prefix of all the pressed keys |
| HalUsb.NkroToKeys | src/hal/usb/hal_usb.cpp:104-197 | the loops build the first six pressed keycodes in bit order, then zeros |
| HalUsb.Released | src/hal/usb/hal_usb.cpp:239-251 | a release drops the key's first slot, moves the later keys one to the left and empties the last slot; an absent key changes nothing |
| HalUsb.PressKeepsPacked | src/hal/usb/hal_usb.cpp:225-237 | pressing keeps the keys packed at the front without repeats |
| HalUsb.ReleaseKeepsPacked | src/hal/usb/hal_usb.cpp:239-251 | releasing keeps the keys packed at the front without repeats |
| HalUsb.PressThenReleaseSingle | src/hal/usb/hal_usb.cpp:225-251 | in a packed state, pressing a new key and releasing it restores the keys |
| HalUsb.SingleKeyState.constructor | src/hal/usb/hal_usb.cpp:210-211 | the static key state starts empty |
| HalUsb.SingleKeyState.SingleKey | src/hal/usb/hal_usb.cpp:204-255 | when ready the modifier is replaced; joystick keys succeed without touching the keys; other keys are added or released and the result is the send's |
| HalUsb.SingleKeyState.Press | src/hal/usb/hal_usb.cpp:225-237 | the search for the key and then for an empty slot computes the add |
| HalUsb.SingleKeyState.Release | src/hal/usb/hal_usb.cpp:239-251 | the clearing and shifting loop computes the release |
| MaiCom.Group | mai_com.cpp:131-137 | each shifted and masked group is below 32 |
| MaiCom.Base32 | mai_com.cpp:131-137 | n base-32 digits, each below 32 |
| MaiCom.GroupIsDigit | mai_com.cpp:131-137 | the shift-and-mask group is the base-32 digit at that place |
| MaiCom.Base32Value | mai_com.cpp:131-137 | reading the digits back gives the value modulo 32^n |
| MaiCom.TouchPacket | mai_com.cpp:129-139 | the packet is nine bytes framed by parentheses, each data byte below 32 |
| MaiCom.PacketGroups | mai_com.cpp:129-139 | bytes 1 to 5 are the five-bit groups of the first word and bytes 6 and 7 those of the second |
| MaiCom.PacketDecodes | mai_com.cpp:129-139 | the packet carries the low 25 bits of the first word and the low 10 bits of the second |
| MaiCom.SendMaiSerial | mai_com.cpp:124-150 | nothing is written while the link is off or no send is due; otherwise the nine-byte packet |
| MaiCom.BaudRateForCode | mai_com.cpp:215-244 | codes '0' to '6' select the listed rates in order; other codes select none |
| MaiCom.CodeForRate | mai_com.cpp:215-244 | exactly the listed rates have a code |
| MaiCom.BaudCodeRoundTrip | mai_com.cpp:215-244 | the code of a listed rate selects that rate |
| MaiCom.BaudCodesDistinct | mai_com.cpp:215-244 | no two codes select the same rate |
| MaiCom.SpeedAfterBaudCommand | mai_com.cpp:215-252 | a listed code switches to its rate and any other byte changes nothing |
| MaiCom.DelayAfterCommand | mai_com.cpp:385-395 | a delay value in [0, queue size) is accepted and any other leaves the delay unchanged |
| MaiCom.DelayStaysInQueue | mai_com.cpp:385-395 | the delay stays a valid age in the touch queue across any number of delay commands |
| CoreQueue.Succ | core.cpp:116 | the 32-bit `time + 1` is one step ahead modulo 2^32 |
| CoreQueue.Pred | core.cpp:116 | the 32-bit `time - 1` is the value whose successor is `time` |
| CoreQueue.Slot | core.cpp:108-115 | every step of the search lands on a slot of the queue |
| CoreQueue.SearchFindsExact | core.cpp:110-121 | the search returns the value of the first sample, in search order, stamped exactly with the requested time |
| CoreQueue.SearchWithoutExact | core.cpp:110-121 | without an exact stamp the search returns the first neighbour value it kept, or 0, or the value of a sample stamped one millisecond away |
| CoreQueue.SlotsCover | core.cpp:108-115 | a full search looks at every slot |
| CoreQueue.TimeReadMeaning | core.cpp:104-122 | a future time reads as 0xFFFFFFFF; a stamp present in the queue is found; otherwise the result is 0 or the value of a sample one millisecond away, and 0 when there is none |
| CoreQueue.FirstHit | core.cpp:110-121 | a stamp present in the search range has a first occurrence in search order |
| CoreQueue.TouchQueue.constructor | core.cpp:47-48 | the queue starts zeroed with the write index at 0 |
| CoreQueue.TouchQueue.Add | core.cpp:95-103 | the write index moves on cyclically and the sample overwrites that slot only |
| CoreQueue.TouchQueue.TimeReadAt | core.cpp:104-122 | the loop computes the timed read of the queue |
| CoreQueue.StepBack | core.cpp:112-115 | the decrement with wrap-around of the search index moves to the next slot in search order |
| CoreQueue.NewestLookedAtLast | core.cpp:108-115 | the search starts one slot behind the write index and ends at the write index, where the newest sample is |
| CoreQueue.AddThenRead | core.cpp:95-122 | after an add, reading the new sample's time finds the new value when no other slot carries that stamp |
| CoreRegions.RingTable | core.cpp:152-156 | the two ring tables follow one closed form, each ending with its first entry |
| CoreRegions.RingIndex | core.cpp:162-163 | the search loop ends at a ring index from its start up to one past the last |
| CoreRegions.NearIndicesAsWritten | core.cpp:159-177 | for an area the search finds, the right neighbour's index is at most 17 |
| CoreRegions.NearRegionReadsPastRing | core.cpp:162-175 | areas 19 and 27, found only at index 16, make `check_near_region` read index 17, one past each 17-entry table |
| CoreRegions.RingTables | core.cpp:152-156 | the closed form gives the two tables entry by entry |
| CoreRegions.RingPosFacts | core.cpp:162-163 | an area of a ring is found at its position and at no earlier index |
| CoreRegions.EntryPos | core.cpp:162-163 | every index from 1 to 16 holds an area found at that index |
| CoreRegions.RingSearch | core.cpp:162-171 | the search for an area of a ring finds it at its position |
| CoreRegions.CheckNearRegion | core.cpp:159-180 | an area on no ring has the neighbours (0, 0) |
| CoreRegions.NearValue | core.cpp:159-180 | the neighbours of a ring area are the entries beside its position, wrapping from 16 to 1 |
| CoreRegions.NeighboursSymmetric | core.cpp:159-180 | the right neighbour's left neighbour and the left neighbour's right neighbour are the area itself |
| CoreRegions.NeighboursOnRing | core.cpp:159-180 | the neighbours of an area are on the same ring |
| CoreRegions.Cleared | core.cpp:206-222 | clearing yields two words again |
| CoreRegions.ClearedOnlyTarget | core.cpp:206-222 | after clearing an area, exactly the areas triggered before except that one are triggered |
| CoreRegions.ClearedSubMask | core.cpp:206-222 | clearing only removes bits |
| CoreRegions.DelTriggle | core.cpp:206-222 | the two words become their cleared form |
| CoreRegions.BindPartner | core.cpp:182-192 | a non-zero partner is bound with the area in some map entry |
| CoreRegions.GetAnotherBindPad | core.cpp:182-192 | the loop returns the partner of the first map entry that names the area |
| CoreRegions.DetectStep | core.cpp:230-256 | one correction step yields two words again |
| CoreRegions.DetectFrom | core.cpp:225-260 | the whole correction yields two words again |
| CoreRegions.DetectFromSubMask | core.cpp:225-260 | the correction only removes touches: the corrected words are sub-masks of the input |
| CoreRegions.DetectStepKeeps | core.cpp:230-256 | a touch on an area that is not a neighbour of the area being checked is never removed by that step |
| CoreRegions.AutoRegionDetect | core.cpp:225-260 | the two words become the correction of areas 1 to 34 in turn, and only lose touches |
| CoreRegions.SetNextBit | core.cpp:284-295 | OR-ing in the next bit above a value adds exactly that bit |
| CoreRegions.Channels | core.cpp:275-279 | channel k is pressed exactly when its weighted reading does not exceed its threshold |
| CoreRegions.SummaryStep | core.cpp:286-295 | OR-ing channel cc in as bit cc extends the summary by that channel |
| CoreRegions.SendTouchInfo | core.cpp:281-297 | bit k of the 24-bit summary is set exactly when channel k is pressed, and no bit above 23 is set |
| NeoPixelStrip.RgbwRoundTrip | src/protocol/neopixel/neopixel.h:42-54 | `from_rgbw(to_rgbw(c))` gives back every channel of `c` |
| NeoPixelStrip.RgbwOnto | src/protocol/neopixel/neopixel.h:42-54 | every 32-bit word is `to_rgbw` of the colour `from_rgbw` reads from it |
| NeoPixelStrip.RgbRoundTrip | src/protocol/neopixel/neopixel.h:38-50 | `from_rgb(to_rgb(c))` keeps red, green and blue and clears white |
| NeoPixelStrip.DataFields | src/protocol/neopixel/neopixel.cpp:434-442 | the word sent to the strip carries green, red, blue, then white on RGBW strips or zero on RGB strips |
| NeoPixelStrip.Scale | src/protocol/neopixel/neopixel.cpp:426-430 | `(x * k) >> 8` never exceeds `x` or `k` and is 0 when either is 0 |
| NeoPixelStrip.ApplyBrightness | src/protocol/neopixel/neopixel.cpp:421-432 | brightness 255 leaves the colour unchanged; no channel grows; brightness 0 turns red, green and blue off, and white too on RGBW; RGB strips keep white |
| NeoPixelStrip.Blend | src/protocol/neopixel/neopixel.cpp:359-367 | a blended channel is at most the larger input and at least 255/256 of the smaller |
| NeoPixelStrip.BlendEnds | src/protocol/neopixel/neopixel.cpp:359-367 | blending at 0 gives the first colour and at 255 the second, each scaled by 255/256 |
| NeoPixelStrip.HsvToRgb | src/protocol/neopixel/neopixel.cpp:316-344 | zero saturation gives grey `(v, v, v)`; every channel is at most `v` and one equals `v`; white is 0 |
| NeoPixelStrip.FullSaturation | src/protocol/neopixel/neopixel.cpp:323-343 | at saturation and value 255 one channel is off and another fully on |
| NeoPixelStrip.WheelColor | src/protocol/neopixel/neopixel.cpp:346-357 | red, green and blue add up to 255 and at least one is off |
| NeoPixelStrip.TailPos | src/protocol/neopixel/neopixel.cpp:473-474 | on a strip at least as long as the offset, the tail index is the head index minus `i`, wrapped round the strip |
| NeoPixelStrip.ChaseShape | src/protocol/neopixel/neopixel.cpp:466-481 | on a strip of more than 3 pixels the head shows the colour, the three pixels behind it the colour shifted right by 1, 2 and 3, and every other pixel is off |
| NeoPixelStrip.FadeProgress | src/protocol/neopixel/neopixel.cpp:445-446 | progress is 255 once the elapsed time reaches the duration, when `elapsed * 255` fits in 32 bits |
| NeoPixelStrip.FadeProgressAsWritten | src/protocol/neopixel/neopixel.cpp:444-446 | the progress as written has no value exactly when the duration is 0, the division by zero |
| NeoPixelStrip.ZeroFadeDividesByZero | src/protocol/neopixel/neopixel.cpp:205-215 | `fade_to_color` with duration 0 builds a non-looping fade that the end check of `task` (neopixel.cpp:281) skips and whose progress is a division by zero |
| NeoPixelStrip.FadeProgressGuarded | src/protocol/neopixel/neopixel.cpp:444-446 | a zero duration gives progress 255 at once; a positive one gives the progress as written, which is 255 once the elapsed time reaches the duration |
| NeoPixelStrip.ToggleFlips | src/protocol/neopixel/neopixel.cpp:498-504 | with an effect colour that is not dark, a flipped pixel changes between dark and lit |
| NeoPixelStrip.RainbowAnimation | src/protocol/neopixel/neopixel.cpp:217-226 | the rainbow has no duration exactly when it loops |
| NeoPixelStrip.ChaseAnimation | src/protocol/neopixel/neopixel.cpp:228-238 | a looping chase has no duration; a single chase lasts `num_leds * speed_ms` when that fits in 32 bits |
| NeoPixelStrip.TwinkleAnimation | src/protocol/neopixel/neopixel.cpp:252-262 | the twinkle has no duration exactly when it loops |
| NeoPixelStrip.RangeEnd | src/protocol/neopixel/neopixel.cpp:133 | the painted range ends within the strip and, when `start + count` fits in 16 bits, at `min(start + count, num_leds)` |
| NeoPixelStrip.NeoPixel.constructor | src/protocol/neopixel/neopixel.cpp:25-33 | all pixels off, brightness 255, no animation, not initialised |
| NeoPixelStrip.NeoPixel.Init | src/protocol/neopixel/neopixel.cpp:39-68 | succeeds when already initialised or when the hardware set-up succeeds, and records it |
| NeoPixelStrip.NeoPixel.Deinit | src/protocol/neopixel/neopixel.cpp:70-88 | an initialised strip stops its animation, turns every pixel off and prepares that frame; afterwards it is not initialised |
| NeoPixelStrip.NeoPixel.SetPixel | src/protocol/neopixel/neopixel.cpp:94-101 | writes the one pixel exactly when the strip is initialised and the index is on the strip; nothing else changes |
| NeoPixelStrip.NeoPixel.SetAllPixels | src/protocol/neopixel/neopixel.cpp:107-110 | every pixel takes the colour, without a readiness check |
| NeoPixelStrip.NeoPixel.ClearAll | src/protocol/neopixel/neopixel.cpp:112-114 | every pixel is off |
| NeoPixelStrip.NeoPixel.SetPixels | src/protocol/neopixel/neopixel.cpp:116-126 | copies the colours from `start` on, stopping at the end of the strip; refused before initialisation or past the strip |
| NeoPixelStrip.NeoPixel.SetRange | src/protocol/neopixel/neopixel.cpp:128-139 | paints `start` up to `RangeEnd` and nothing else; refused before initialisation or past the strip |
| NeoPixelStrip.NeoPixel.GetPixel | src/protocol/neopixel/neopixel.cpp:141-147 | the stored pixel, or an all-off colour past the strip |
| NeoPixelStrip.NeoPixel.SetBrightness | src/protocol/neopixel/neopixel.cpp:168-170 | stores the brightness and nothing else |
| NeoPixelStrip.NeoPixel.PreparePixelData | src/protocol/neopixel/neopixel.cpp:413-419 | every data word is the packed, brightness-scaled pixel |
| NeoPixelStrip.NeoPixel.StartAnimation | src/protocol/neopixel/neopixel.cpp:176-194 | refused before initialisation; otherwise saves the current pixels as starting colours, runs the animation from step 0 and takes its brightness |
| NeoPixelStrip.NeoPixel.StopAnimation | src/protocol/neopixel/neopixel.cpp:196-199 | the animation stops and nothing else changes |
| NeoPixelStrip.NeoPixel.FadeToColor | src/protocol/neopixel/neopixel.cpp:205-215 | starts a non-looping fade to the target at 20 ms steps with the current brightness |
| NeoPixelStrip.NeoPixel.RainbowCycle | src/protocol/neopixel/neopixel.cpp:217-226 | starts the rainbow descriptor |
| NeoPixelStrip.NeoPixel.ColorChase | src/protocol/neopixel/neopixel.cpp:228-238 | starts the chase descriptor |
| NeoPixelStrip.NeoPixel.BreatheEffect | src/protocol/neopixel/neopixel.cpp:240-250 | starts the breathe descriptor, lasting one period unless looping |
| NeoPixelStrip.NeoPixel.TwinkleEffect | src/protocol/neopixel/neopixel.cpp:252-262 | starts the twinkle descriptor |
| NeoPixelStrip.NeoPixel.UpdateFade | src/protocol/neopixel/neopixel.cpp:444-455 | every pixel is its starting colour blended towards the target by the guarded progress, and the animation stops at progress 255; a zero-length fade stops on its first update |
| NeoPixelStrip.NeoPixel.UpdateRainbow | src/protocol/neopixel/neopixel.cpp:457-464 | pixel `i` shows the fully saturated hue `(step * 5 + i * 256 / n) % 256` |
| NeoPixelStrip.NeoPixel.UpdateChase | src/protocol/neopixel/neopixel.cpp:466-481 | the strip shows exactly the chase frame for the current step |
| NeoPixelStrip.NeoPixel.UpdateTwinkle | src/protocol/neopixel/neopixel.cpp:495-506 | each pixel picked by the random draw toggles between off and the effect colour; the others keep their colour |
| Graphics.I16 | src/service/ui_manager/graphics_engine.cpp:51-86 | a conversion to int16_t lands in the signed 16-bit range and keeps values already in it |
| Graphics.Index | src/service/ui_manager/graphics_engine.cpp:15-25 | an on-screen pixel has an index inside the framebuffer |
| Graphics.IndexCoords | src/service/ui_manager/graphics_engine.cpp:15-25 | the index gives back the column and row, so distinct pixels have distinct cells |
| Graphics.PaintReads | src/service/ui_manager/graphics_engine.cpp:76-87 | after painting a box a pixel reads the colour inside the box and its old value outside |
| Graphics.PaintIdempotent | src/service/ui_manager/graphics_engine.cpp:76-87 | painting the same box twice is painting it once |
| Graphics.FillBox | src/service/ui_manager/graphics_engine.cpp:76-80 | the filled box is clipped to the screen |
| Graphics.FillBoxExact | src/service/ui_manager/graphics_engine.cpp:76-87 | a rectangle that fits on screen is filled exactly |
| Graphics.RgbRoundTrip | src/service/ui_manager/graphics_engine.cpp:431-439 | converting to RGB565 and back keeps the top five, six and five bits of the channels |
| Graphics.ColorRoundTrip | src/service/ui_manager/graphics_engine.cpp:431-439 | every 16-bit colour survives the trip through RGB and back |
| Graphics.GraphicsEngine.constructor | src/service/ui_manager/graphics_engine.cpp:6-7 | the engine draws into the buffer it was given |
| Graphics.GraphicsEngine.Clear | src/service/ui_manager/graphics_engine.cpp:9-13 | every pixel takes the colour; without a buffer nothing happens |
| Graphics.GraphicsEngine.SetPixel | src/service/ui_manager/graphics_engine.cpp:15-19 | an on-screen pixel takes the colour and nothing else changes; off-screen writes are ignored |
| Graphics.GraphicsEngine.GetPixel | src/service/ui_manager/graphics_engine.cpp:21-25 | an on-screen pixel reads its cell; off screen or without a buffer the result is black |
| Graphics.GraphicsEngine.PaintRow | src/service/ui_manager/graphics_engine.cpp:51-58 | the loop of set_pixel calls paints exactly the row segment |
| Graphics.GraphicsEngine.DrawHLine | src/service/ui_manager/graphics_engine.cpp:51-58 | a line starting on screen with a positive width paints its clipped row segment; otherwise nothing changes |
| Graphics.GraphicsEngine.DrawVLine | src/service/ui_manager/graphics_engine.cpp:60-67 | a line starting on screen with a positive height paints its clipped column segment; otherwise nothing changes |
| Graphics.GraphicsEngine.DrawRect | src/service/ui_manager/graphics_engine.cpp:69-74 | the outline is the four edges drawn in order, the far edges computed in 16 bits |
| Graphics.GraphicsEngine.FillRect | src/service/ui_manager/graphics_engine.cpp:76-87 | the pixels of the clipped rectangle take the colour and all others keep theirs |
| MainPage.UptimeParts | src/service/ui_manager/page/main_page.cpp:75-79 | the hours, minutes below 60 and seconds below 60 add up to the whole seconds of the uptime |
| MainPage.FormatUptime | src/service/ui_manager/page/main_page.cpp:75-93 | the text holds at least a number and ends in s |
| MainPage.FormatUptimeParses | src/service/ui_manager/page/main_page.cpp:75-93 | reading the text back gives the uptime's whole seconds |
| MainPage.FormatPartsParses | src/service/ui_manager/page/main_page.cpp:82-90 | each of the three layouts reads back as its hours, minutes and seconds |
| MainPage.FormatUptimeShape | src/service/ui_manager/page/main_page.cpp:82-90 | the text ends in s, holds h exactly from one hour on and m exactly from one minute on |
| TouchSensorMask.GenerateIdMask | src/protocol/touch_sensor/touch_sensor.h:85-87 | the low four id bits sit in bits 28-31 and nothing lies below them |
| TouchSensorMask.ExtractChannelMask | src/protocol/touch_sensor/touch_sensor.h:113-115 | the channel bitmap is the mask's low 28 bits |
| TouchSensorMask.GenerateFullMask | src/protocol/touch_sensor/touch_sensor.h:95-97 | the full mask is the id field above the low 28 channel bits and fits in 32 bits |
| TouchSensorMask.ExtractIdFromMask | src/protocol/touch_sensor/touch_sensor.h:104-106 | the id is the top four bits of the mask |
| TouchSensorMask.IdRoundTrip | src/protocol/touch_sensor/touch_sensor.h:85-106 | the id read back from a full mask is the low four bits of the id it was built from |
| TouchSensorMask.ChannelRoundTrip | src/protocol/touch_sensor/touch_sensor.h:95-115 | the channels read back from a full mask are the low 28 bits of those it was built from |
| TouchSensorMask.SplitRoundTrip | src/protocol/touch_sensor/touch_sensor.h:95-115 | every 32-bit mask is the full mask of its own id and channels |
| TouchSensorMask.FieldsDisjoint | src/protocol/touch_sensor/touch_sensor.h:85-115 | the id field and the channel field share no bit |
| Gtx312l.PhysicalAddr | src/protocol/touch_sensor/gtx312l/gtx312l.h:40-44 | the I2C port sits in bits 14-15, the controller address in bits 12-13 and the channels in bits 0-11 |
| Gtx312l.PackValue | src/protocol/touch_sensor/gtx312l/gtx312l.h:40-44 | ORing fields that fit their widths is adding them at their places |
| Gtx312l.DeviceMask | src/protocol/touch_sensor/gtx312l/gtx312l.h:47-49 | the device mask drops the twelve channel bits |
| Gtx312l.PhysicalAddrFields | src/protocol/touch_sensor/gtx312l/gtx312l.h:40-49 | reading each field back gives the argument truncated to its width |
| Gtx312l.DeviceMaskOfAddr | src/protocol/touch_sensor/gtx312l/gtx312l.h:40-49 | the device mask of an address is that address with no channels |
| Gtx312l.IsChannelTouched | src/protocol/touch_sensor/gtx312l/gtx312l.h:153-156 | a channel is touched exactly when it is one of the twelve and its status bit is set |
| Gtx312l.MaskedBit | src/protocol/touch_sensor/gtx312l/gtx312l.h:155 | status & (1 << i) is non-zero exactly when bit i is set |
| Gtx312l.GetTouchedCount | src/protocol/touch_sensor/gtx312l/gtx312l.h:159-165 | the count is the number of set bits among the twelve channels |
| Gtx312l.NoTouchIffZeroCount | src/protocol/touch_sensor/gtx312l/gtx312l.h:153-165 | the count is zero exactly when no channel is touched |
| Gtx312l.SampleMaskLosesTouch | src/protocol/touch_sensor/gtx312l/gtx312l.h:78-79 | controller 1 on port 0 touched on channel 2 yields an empty sample mask |
| Gtx312l.SampleMask | src/protocol/touch_sensor/gtx312l/gtx312l.h:78-79 | the intended sample keeps the device mask and the twelve touch bits |
| Fonts.SystemCharLength | src/service/ui_manager/engine/font_system.cpp:98-109 | a null string has length 0; any other string 1 to 4 bytes by its lead byte, 1 for an invalid lead byte |
| Fonts.DataCharLength | src/service/ui_manager/engine/fonts/font_data.cpp:15-22 | the lead-byte length is always 1 to 4 |
| Fonts.CharLengthsAgree | src/service/ui_manager/engine/fonts/font_data.cpp:15-22 | the font data's copy of the length function agrees with the font system's on every non-null string |
| Fonts.Utf8ToUnicode | src/service/ui_manager/engine/font_system.cpp:67-96 | every decoded value lies in the Basic Multilingual Plane |
| Fonts.Utf8RoundTrip | src/service/ui_manager/engine/font_system.cpp:67-109 | decoding the UTF-8 encoding of any code point below 0x10000 gives it back, and both length functions read the encoding's length from its lead byte |
| Fonts.BinarySearchAscii | src/service/ui_manager/engine/fonts/font_data.cpp:25-43 | a found position holds the target; over an ascending index string, -1 means the target is absent |
| Fonts.SearchChinese | src/service/ui_manager/engine/fonts/font_data.cpp:46-72 | -1 for a one-byte lead; otherwise the first entry whose leading min(3, length) bytes match, or -1 when none does |
| Fonts.FindCharacter | src/service/ui_manager/engine/fonts/font_data.cpp:75-108 | null or empty strings find nothing; a lead byte of 0x80 or more is found only in the Chinese font with its cell size and a matching entry's bitmap, any other only in the ASCII font; not found means no entry matches |
| Fonts.AddressingAgreesOnByteWidths | src/service/ui_manager/engine/font_system.cpp:122-127 | packed and byte-padded bit addressing coincide when the glyph width is a multiple of 8 |
| Fonts.BoxGlyphShape | src/service/ui_manager/engine/fonts/font_data.cpp:111-128 | read with two bytes per row, the default glyph is exactly the 11-by-14 box outline |
| Fonts.BoxReadPacked | src/service/ui_manager/engine/font_system.cpp:122-127 | read as draw_char_bitmap reads a 14-wide glyph, the box loses its left edge pixel on row 1 |
| Fonts.CreateDefaultBoxChar | src/service/ui_manager/engine/fonts/font_data.cpp:111-128 | the first 28 bytes become the box glyph, the rest of the buffer is unchanged, a null buffer is ignored |
| Fonts.CellOfIndex | src/service/ui_manager/engine/font_system.cpp:128 | a glyph cell lands on framebuffer index k exactly when k is the on-screen position of (x + col, y + row) cut to 16 bits |
| Fonts.DrawnStep | src/service/ui_manager/engine/font_system.cpp:119-131 | the cells drawn grow by exactly one cell per inner-loop pass |
| Fonts.PlotCell | src/service/ui_manager/engine/font_system.cpp:121-129 | one inner-loop pass sets the pixel of cell (row, col) when its bit is set and changes nothing else |
| Fonts.DrawCharBitmap | src/service/ui_manager/engine/font_system.cpp:116-132 | every framebuffer pixel afterwards is the colour exactly when some set glyph bit lands on it, and is unchanged otherwise; nothing changes without a glyph |
| Fonts.AsciiCharWidth | src/service/ui_manager/engine/font_system.cpp:16-28 | non-printable characters have width 0 |
| Fonts.ChineseCharWidth | src/service/ui_manager/engine/font_system.cpp:51-65 | without a glyph or default glyph the width is 12 |
| Fonts.ChineseShown | src/service/ui_manager/engine/font_system.cpp:30-49 | the character's glyph (or the default Chinese glyph) when there is one, and always a glyph whose data covers its cells |
| Fonts.BlankDrawsNothing | src/service/ui_manager/engine/font_system.cpp:40-42 | the all-clear fallback glyph sets no pixel |
| Fonts.DrawAsciiChar | src/service/ui_manager/engine/font_system.cpp:7-14 | a printable character with a glyph is drawn as draw_char_bitmap draws it; otherwise the framebuffer is unchanged |
| Fonts.DrawChineseChar | src/service/ui_manager/engine/font_system.cpp:30-49 | draws the character's glyph, else the space glyph, else the blank glyph |
| Fonts.I16Absorb | src/service/ui_manager/graphics_engine.cpp:393-425 | accumulating in an int16_t wraps the same as wrapping the total |
| Fonts.TextWidth | src/service/ui_manager/graphics_engine.cpp:393-404 | the result is the sum of the printable characters' widths up to the terminator, cut to int16_t; 0 for a null string |
| Fonts.ChineseTextWidth | src/service/ui_manager/graphics_engine.cpp:406-425 | the result is the sum over three-byte sequences (their Chinese width) and printable characters (their ASCII width) up to the terminator, cut to int16_t |
| Fonts.TextSumAppend | src/service/ui_manager/graphics_engine.cpp:393-404 | text width is additive over concatenation |
| Fonts.AsciiTextWidthsAgree | src/service/ui_manager/graphics_engine.cpp:393-425 | on 7-bit text both width functions give the same result |
| Fonts.ChineseCharCounted | src/service/ui_manager/graphics_engine.cpp:406-425 | an encoded Chinese character counts once with its glyph width in the Chinese width and not at all in the ASCII width |
| LineConfigs.CountInteractive | src/service/ui_manager/engine/page_construction/page_template.h:293-309 | the menu-item count never exceeds the number of lines |
| LineConfigs.CountAppend | src/service/ui_manager/engine/page_construction/page_template.h:293-309 | the count over two lists joined is the sum of their counts |
| LineConfigs.CountIgnoresSelection | src/service/ui_manager/engine/page_construction/page_template.h:293-309 | lists that agree on every line's text and kind have the same count |
| LineConfigs.TextLine | src/service/ui_manager/engine/page_construction/page_template.h:111-114 | a plain text line carries its text, is not selected and is no menu item |
| LineConfigs.TitledTextLine | src/service/ui_manager/engine/page_construction/page_template.h:117-119 | the text is the title, a colon and a space, then the content |
| LineConfigs.StatusLineOf | src/service/ui_manager/engine/page_construction/page_template.h:122-133 | a status line has no callback and is no menu item |
| LineConfigs.MenuJumpOf | src/service/ui_manager/engine/page_construction/page_template.h:136-149 | a menu jump keeps its target page and jump string, is left-aligned, and is a menu item exactly when its text is non-empty |
| LineConfigs.ProgressBarOf | src/service/ui_manager/engine/page_construction/page_template.h:152-161 | a progress line is no menu item |
| LineConfigs.IntSettingOf | src/service/ui_manager/engine/page_construction/page_template.h:164-189 | an integer setting keeps its bounds and title, is centred, prefers the change callback over the completion callback, and is a menu item exactly when its text is non-empty |
| LineConfigs.ButtonOf | src/service/ui_manager/engine/page_construction/page_template.h:192-204 | a button carries the click callback and is a menu item exactly when its text is non-empty |
| LineConfigs.BackItemOf | src/service/ui_manager/engine/page_construction/page_template.h:207-218 | a back item is left-aligned, has no callback and is a menu item exactly when its text is non-empty |
| LineConfigs.SelectorOf | src/service/ui_manager/engine/page_construction/page_template.h:221-237 | a selector starts unlocked with the selector callback, keeps whether it has a lock, and is a menu item exactly when its text is non-empty |
| LineConfigs.CopyAsWritten | src/service/ui_manager/engine/page_construction/page_template.cpp:8-42 | the copy and move constructors as written: every field but jump_str copied, jump_str empty |
| LineConfigs.AssignAsWritten | src/service/ui_manager/engine/page_construction/page_template.cpp:45-83 | the copy and move assignments as written: every field but jump_str copied, the target's jump_str kept |
| LineConfigs.JumpStrLostOnCopy | src/service/ui_manager/engine/page_construction/page_template.cpp:8-171 | a menu jump whose jump string is a device name loses it when copied or assigned over an empty line |
| LineConfigs.Copy | src/service/ui_manager/engine/page_construction/page_template.cpp:131-171 | the corrected copy keeps every field, the jump string and whether the line is a menu item |
| ScrollBars.ClampStart | src/service/ui_manager/engine/graphics_rendering/scroll_bar.cpp:126-129 | the start lies between 0 and the last start, is unchanged when already there, and is the last start when past it |
| ScrollBars.ClampIdempotent | src/service/ui_manager/engine/graphics_rendering/scroll_bar.cpp:126-129 | clamping twice is clamping once |
| ScrollBars.ClampInfo | src/service/ui_manager/engine/graphics_rendering/scroll_bar.cpp:41-47 | only the offset changes, and it ends between 0 and total minus visible |
| ScrollBars.Window | src/service/ui_manager/engine/graphics_rendering/scroll_bar.cpp:96-117 | exactly n lines: the page's lines from the start, empty lines past the end |
| ScrollBars.LastWindowShowsEnd | src/service/ui_manager/engine/graphics_rendering/scroll_bar.cpp:96-117 | the window at the last start shows the last lines of the page |
| ScrollBars.ScrollBar.constructor | src/service/ui_manager/engine/graphics_rendering/scroll_bar.cpp:8-30 | no lines, start 0, four visible lines, scrolling off |
| ScrollBars.ScrollBar.UpdateScrollInfo | src/service/ui_manager/engine/graphics_rendering/scroll_bar.cpp:41-47 | the info is the given info with its offset clamped; nothing else changes |
| ScrollBars.ScrollBar.UpdateInfoFromState | src/service/ui_manager/engine/graphics_rendering/scroll_bar.cpp:119-124 | the info mirrors the line count, the visible count and the start |
| ScrollBars.ScrollBar.SetupPageScroll | src/service/ui_manager/engine/graphics_rendering/scroll_bar.cpp:49-67 | the first 48 lines are kept, the start index stays, and scrolling is on exactly when the kept lines outnumber a non-negative visible count |
| ScrollBars.ScrollBar.ClampDisplayIndex | src/service/ui_manager/engine/graphics_rendering/scroll_bar.cpp:126-129 | the start is clamped into the scrollable range; nothing else changes |
| ScrollBars.ScrollBar.ScrollUp | src/service/ui_manager/engine/graphics_rendering/scroll_bar.cpp:69-78 | succeeds exactly when scrolling is on and the start is positive; then the start moves up one line (clamped) |
| ScrollBars.ScrollBar.ScrollDown | src/service/ui_manager/engine/graphics_rendering/scroll_bar.cpp:80-94 | succeeds exactly when scrolling is on and the start is before the last start; then the start moves down one line and stays in range |
| ScrollBars.ScrollBar.SetDisplayStartIndex | src/service/ui_manager/engine/graphics_rendering/scroll_bar.cpp:131-136 | the start becomes the index clamped into the scrollable range |
| ScrollBars.ScrollBar.GetVisibleLines | src/service/ui_manager/engine/graphics_rendering/scroll_bar.cpp:96-117 | the result is the window of visible lines from the start |
| ScrollBars.ScrollBar.ShouldShow | src/service/ui_manager/engine/graphics_rendering/scroll_bar.cpp:138-140 | the bar is shown exactly when the clamped offset can be positive, that is when the lines outnumber the visible ones |
| PageTemplates.Resize | src/service/ui_manager/engine/page_construction/page_template.cpp:239-247 | resizing keeps the first lines and pads with default lines |
| PageTemplates.LineY | src/service/ui_manager/engine/page_construction/page_template.cpp:554-557 | the position is 0 outside lines 0 to 4 |
| PageTemplates.LinesFitScreen | src/service/ui_manager/engine/page_construction/page_template.cpp:554-557 | visible lines sit below the title, do not overlap, and end on the 80-pixel screen |
| PageTemplates.NthUnique | src/service/ui_manager/engine/page_construction/page_template.cpp:364-411 | two lines cannot both be the same menu item number |
| PageTemplates.SelectionMovesOnly | src/service/ui_manager/engine/page_construction/page_template.cpp:364-411 | after a selection move exactly the new line is selected, and lines other than the old and new ones are unchanged |
| PageTemplates.SelectionKeepsMenu | src/service/ui_manager/engine/page_construction/page_template.cpp:364-411 | moving the selection keeps the menu-item count |
| PageTemplates.EndLineStart | src/service/ui_manager/engine/page_construction/page_template.cpp:457-494 | the start lies in the scrollable range, is 0 for a target within the first screen, and otherwise puts the target on the last visible line where the list allows it |
| PageTemplates.EndLineVisible | src/service/ui_manager/engine/page_construction/page_template.cpp:457-494 | after the jump the target line is on screen |
| PageTemplates.PageTemplate.constructor | src/service/ui_manager/engine/page_construction/page_template.cpp:187-217 | an empty untitled page with five blank visible lines, no selection and scrolling off; the static title flag keeps the value the previous template left |
| PageTemplates.PageTemplate.Flush | src/service/ui_manager/engine/page_construction/page_template.cpp:219-237 | the drawn lines and the title are gone; the full list, the selection and the scroll state stay |
| PageTemplates.PageTemplate.SetTitle | src/service/ui_manager/engine/page_construction/page_template.cpp:239-247 | a title leaves four visible lines and no title leaves five, and the drawn lines are resized to match |
| PageTemplates.PageTemplate.SetLines | src/service/ui_manager/engine/page_construction/page_template.cpp:264-273 | the drawn lines are the given lines cut or padded to the visible count |
| PageTemplates.PageTemplate.UpdateScrollDisplay | src/service/ui_manager/engine/page_construction/page_template.cpp:441-455 | in scroll mode the drawn lines become the scroll bar's window; otherwise nothing changes |
| PageTemplates.PageTemplate.SetLine | src/service/ui_manager/engine/page_construction/page_template.cpp:249-262 | in scroll mode a full-list line is replaced and the display refreshed; otherwise only drawn lines 0 to 3 can be replaced |
| PageTemplates.PageTemplate.SetAllLines | src/service/ui_manager/engine/page_construction/page_template.cpp:275-308 | scrolling turns on exactly when the lines outnumber the visible count; then the scroll bar holds the first 48 lines and is displayed, else the lines are drawn directly and the selection returns to 0 |
| PageTemplates.PageTemplate.Clear | src/service/ui_manager/engine/page_construction/page_template.cpp:310-321 | the title goes, every drawn line is emptied and deselected, and the selection returns to 0 |
| PageTemplates.PageTemplate.ClearLine | src/service/ui_manager/engine/page_construction/page_template.cpp:323-330 | drawn lines 0 to 3 lose their text, kind and selection; other indices change nothing |
| PageTemplates.PageTemplate.SetProgress | src/service/ui_manager/engine/page_construction/page_template.cpp:496-503 | drawn lines 0 to 3 become a green progress line with the text |
| PageTemplates.PageTemplate.GetMenuItemCount | src/service/ui_manager/engine/page_construction/page_template.h:293-309 | the count is the number of menu items in the full list |
| PageTemplates.PageTemplate.GetLineConfig | src/service/ui_manager/engine/page_construction/page_template.h:312-318 | the line at the index, or an empty line out of range |
| PageTemplates.PageTemplate.SetSelectedIndex | src/service/ui_manager/engine/page_construction/page_template.cpp:364-411 | outside scroll mode and for a valid menu number, the selection moves to that menu item and the old line is deselected; otherwise nothing changes |
| PageTemplates.PageTemplate.ScrollUp | src/service/ui_manager/engine/page_construction/page_template.cpp:413-425 | succeeds exactly when the page and the scroll bar scroll and the start is positive; then the display is refreshed |
| PageTemplates.PageTemplate.ScrollDown | src/service/ui_manager/engine/page_construction/page_template.cpp:427-439 | succeeds exactly when the page and the scroll bar scroll and the start is before the last start; then the start moves down one line and the display is refreshed |
| PageTemplates.PageTemplate.SetScrollPosition | src/service/ui_manager/engine/page_construction/page_template.h:277-282 | in scroll mode the start becomes the clamped position and the display is refreshed; otherwise nothing moves |
| PageTemplates.PageTemplate.SetVisibleEndLine | src/service/ui_manager/engine/page_construction/page_template.cpp:457-494 | in scroll mode, for a line of the list, the start becomes the clamped end-line start and the display is refreshed; otherwise nothing moves |
| UiConstructs.SettingClamp | src/service/ui_manager/engine/ui_constructs.cpp:145-149 | the clamped value lies within sensible bounds, is unchanged inside them, and is the lower bound below them or when the bounds are crossed |
| UiConstructs.SettingsConstruct.constructor | src/service/ui_manager/engine/ui_constructs.cpp:78-94 | a target is clamped into the bounds at construction |
| UiConstructs.SettingsConstruct.ClampValue | src/service/ui_manager/engine/ui_constructs.cpp:145-149 | a target ends inside sensible bounds; without a target nothing changes |
| UiConstructs.SettingsConstruct.AdjustValue | src/service/ui_manager/engine/ui_constructs.cpp:127-132 | the target moves by the delta and is clamped, so it stays inside the bounds |
| UiConstructs.SettingsConstruct.SetValue | src/service/ui_manager/engine/ui_constructs.cpp:138-143 | the target takes the value, clamped, so it stays inside the bounds |
| UiConstructs.SettingsConstruct.GetCurrentValue | src/service/ui_manager/engine/ui_constructs.cpp:134-136 | the target's value, inside the bounds, or 0 without a target |
| UiConstructs.SettingsConstruct.DisplayText | src/service/ui_manager/engine/ui_constructs.cpp:96-110 | with a target the text is followed by a colon, a space and the value's decimal digits; without one it is the text alone |
| UiConstructs.DisplayedValueReadsBack | src/service/ui_manager/engine/ui_constructs.cpp:96-110 | the digits displayed for a non-negative target read back as the target |
| UiConstructs.SettingsConstruct.HandleInteraction | src/service/ui_manager/engine/ui_constructs.cpp:112-118 | always handled; the callback, when present, receives the current value |
| UiConstructs.FirstInteractive | src/service/ui_manager/engine/ui_constructs.cpp:189-199 | -1 exactly when no construct is interactive, otherwise the least interactive index |
| UiConstructs.FirstInteractiveUnique | src/service/ui_manager/engine/ui_constructs.cpp:189-199 | the least interactive index is the only index with that property |
| UiConstructs.MarkSelected | src/service/ui_manager/engine/ui_constructs.cpp:360-367 | exactly the construct at the selected index reports selected, and nothing else about any construct changes |
| UiConstructs.MarkSelectedKeepsKinds | src/service/ui_manager/engine/ui_constructs.cpp:360-367 | updating the selection changes neither which constructs are interactive nor the first of them |
| UiConstructs.Cyc | src/service/ui_manager/engine/ui_constructs.cpp:369-384 | the cyclic index is always a valid index |
| UiConstructs.CycAsWrittenAgrees | src/service/ui_manager/engine/ui_constructs.cpp:378 | wherever the index as written is valid it equals the cyclic index |
| UiConstructs.CycOnto | src/service/ui_manager/engine/ui_constructs.cpp:376-382 | every index of the page is met by the scan within one round, forwards or backwards |
| UiConstructs.ScanFrom | src/service/ui_manager/engine/ui_constructs.cpp:376-383 | the scan returns the selection or an interactive construct |
| UiConstructs.ScanFromFinds | src/service/ui_manager/engine/ui_constructs.cpp:376-383 | when a later step meets an interactive construct, the scan returns the first one met |
| UiConstructs.FindNext | src/service/ui_manager/engine/ui_constructs.cpp:369-384 | -1 on an empty page; otherwise the current selection or an interactive construct |
| UiConstructs.FindNextFindsAny | src/service/ui_manager/engine/ui_constructs.cpp:369-384 | on a page with an interactive construct the scan always returns one |
| UiConstructs.FindNextKeeps | src/service/ui_manager/engine/ui_constructs.cpp:383 | with nothing interactive the scan keeps the current selection |
| UiConstructs.ScanAsWrittenAgrees | src/service/ui_manager/engine/ui_constructs.cpp:376-383 | where the scan as written stays on the page it returns what the cyclic scan returns |
| UiConstructs.NavigateUpReadsBeforeStart | src/service/ui_manager/engine/ui_constructs.cpp:262-272 | navigating up on a page of two text constructs with nothing selected makes the scan as written read index -1 |
| UiConstructs.ReselectAfterRemove | src/service/ui_manager/engine/ui_constructs.cpp:201-217 | the repaired selection is -1 or a construct, and -1 when nothing was selected or the page is empty |
| UiConstructs.ReselectLandsOnInteractive | src/service/ui_manager/engine/ui_constructs.cpp:201-217 | after a removal a selection stays on an interactive construct while there is one |
| UiConstructs.ConstructPage.constructor | src/service/ui_manager/engine/ui_constructs.cpp:181-183 | an empty page with nothing selected |
| UiConstructs.ConstructPage.UpdateSelection | src/service/ui_manager/engine/ui_constructs.cpp:360-367 | only the selected construct reports selected afterwards |
| UiConstructs.ConstructPage.AddConstruct | src/service/ui_manager/engine/ui_constructs.cpp:189-199 | a null construct is ignored; the first interactive construct added while nothing is selected becomes selected; a page whose selection is its first interactive construct keeps that property |
| UiConstructs.ConstructPage.RemoveConstruct | src/service/ui_manager/engine/ui_constructs.cpp:201-217 | an index past the end changes nothing; otherwise the construct goes and the selection is repaired as specified |
| UiConstructs.ConstructPage.ClearConstructs | src/service/ui_manager/engine/ui_constructs.cpp:219-222 | no constructs and nothing selected |
| UiConstructs.ConstructPage.GetConstruct | src/service/ui_manager/engine/ui_constructs.cpp:224-229 | the construct at the index, or null past the end |
| UiConstructs.ConstructPage.HasInteractiveElements | src/service/ui_manager/engine/ui_constructs.cpp:235-242 | true exactly when some construct is interactive, that is when there is a first interactive construct |
| UiConstructs.ConstructPage.GetInteractiveIndices | src/service/ui_manager/engine/ui_constructs.cpp:244-252 | exactly the interactive indices, in increasing order, the first being the first interactive construct |
| UiConstructs.ConstructPage.SetSelectedIndex | src/service/ui_manager/engine/ui_constructs.cpp:254-260 | only an interactive construct can be selected; anything else changes nothing |
| UiConstructs.ConstructPage.FindNextInteractive | src/service/ui_manager/engine/ui_constructs.cpp:369-384 | the result is the cyclic scan's |
| UiConstructs.ConstructPage.MoveTo | src/service/ui_manager/engine/ui_constructs.cpp:264-271 | the selection moves and is marked exactly when the target differs from it |
| UiConstructs.ConstructPage.NavigateUp | src/service/ui_manager/engine/ui_constructs.cpp:262-272 | on a non-empty page the selection moves to the scan's target backwards from the previous construct when that differs from it |
| UiConstructs.ConstructPage.NavigateDown | src/service/ui_manager/engine/ui_constructs.cpp:274-284 | on a non-empty page the selection moves to the scan's target forwards from the next construct when that differs from it |
| UiConstructs.ConstructPage.NavigateLeft | src/service/ui_manager/engine/ui_constructs.cpp:286-297 | as navigating up, but only from a selection past the first construct |
| UiConstructs.ConstructPage.NavigateRight | src/service/ui_manager/engine/ui_constructs.cpp:299-310 | as navigating down, but only from a selection before the last construct |
| UiConstructs.ConstructPage.HandleConfirm | src/service/ui_manager/engine/ui_constructs.cpp:312-325 | the selected construct's interaction result, false without a selection |
| UiConstructs.Interaction | src/service/ui_manager/engine/ui_constructs.cpp:25-31 | a page jump reports the page switch, a button whether it has a callback, a setting always succeeds, text never does |
| UiConstructs.NavigationLandsOnInteractive | src/service/ui_manager/engine/ui_constructs.cpp:262-284 | on a page with an interactive construct, navigation always targets an interactive construct |
| UiConstructs.PopOf | src/service/ui_manager/engine/ui_constructs.cpp:399-406 | an empty stack pops the main page; otherwise the popped page and the remaining stack make up the old stack |
| UiConstructs.PushPopLifo | src/service/ui_manager/engine/ui_constructs.cpp:395-406 | popping right after a push returns the pushed page and restores the stack |
| UiConstructs.BackTarget | src/service/ui_manager/engine/ui_constructs.cpp:423-439 | on the main page or with interactive content the current page is kept; otherwise the stack is popped |
| UiConstructs.PageStack.constructor | src/service/ui_manager/engine/ui_constructs.h:229-232 | an empty stack over the main page |
| UiConstructs.PageStack.PushPage | src/service/ui_manager/engine/ui_constructs.cpp:395-397 | the page goes on top |
| UiConstructs.PageStack.PopPage | src/service/ui_manager/engine/ui_constructs.cpp:399-406 | the top page is removed and returned; an empty stack gives the main page |
| UiConstructs.PageStack.CurrentPage | src/service/ui_manager/engine/ui_constructs.cpp:408-410 | the page a pop would return |
| UiConstructs.PageStack.PreviousPage | src/service/ui_manager/engine/ui_constructs.cpp:412-417 | the page that is current after a pop |
| UiConstructs.PageStack.CanGoBack | src/service/ui_manager/engine/ui_constructs.cpp:419-421 | true exactly when a pop would shorten the stack |
| UiConstructs.PageStack.HandleBackNavigation | src/service/ui_manager/engine/ui_constructs.cpp:423-439 | the target and the stack left are the back-navigation rule's |
| UiConstructs.PageStack.ClearStack | src/service/ui_manager/engine/ui_constructs.cpp:441-443 | the stack is empty |
| UiConstructs.PageStack.SetMainPage | src/service/ui_manager/engine/ui_constructs.h:223 | the main page changes and the stack does not |
| UiConstructs.MenuNumber | src/service/ui_manager/engine/ui_constructs.cpp:483-509 | the number of menu items before a line, never more than the item count |
| UiConstructs.JoystickDownStuck | src/service/ui_manager/engine/ui_constructs.cpp:497-509 | with a title line over two buttons and the second selected, the joystick as written asks for the second button again where the first is next |
| UiConstructs.JoystickUpStuck | src/service/ui_manager/engine/ui_constructs.cpp:483-495 | with a title line over two buttons and the first selected, the joystick as written asks for the first button again where the second is the previous item, cyclically |
| UiConstructs.MenuInteractionSystem.constructor | src/service/ui_manager/engine/ui_constructs.h:266-268 | no pages, on the main page |
| UiConstructs.MenuInteractionSystem.RegisterPage | src/service/ui_manager/engine/ui_constructs.cpp:454-458 | a non-null page is stored under its identifier; a null page changes nothing |
| UiConstructs.MenuInteractionSystem.UnregisterPage | src/service/ui_manager/engine/ui_constructs.cpp:460-462 | the identifier is no longer registered |
| UiConstructs.MenuInteractionSystem.GetPage | src/service/ui_manager/engine/ui_constructs.cpp:468-471 | the registered page, or null |
| UiConstructs.MenuInteractionSystem.SwitchToPage | src/service/ui_manager/engine/ui_constructs.cpp:473-481 | succeeds exactly for a registered page; then the old page is pushed and the new one is current |
| UiConstructs.MenuInteractionSystem.HandleJoystickUp | src/service/ui_manager/engine/ui_constructs.cpp:483-495 | the corrected handler (see Findings): handled exactly when the current page has menu items; then the item before the selected line's menu number, cyclically, becomes selected |
| UiConstructs.MenuInteractionSystem.HandleJoystickDown | src/service/ui_manager/engine/ui_constructs.cpp:497-509 | the corrected handler (see Findings): handled exactly when the current page has menu items; then the item after the selected line's menu number, cyclically, becomes selected |
| UiConstructs.MenuInteractionSystem.HandleJoystickSideways | src/service/ui_manager/engine/ui_constructs.cpp:511-527 | left, right and confirm are never handled |
| UiConstructs.MenuInteractionSystem.HandleBackButton | src/service/ui_manager/engine/ui_constructs.cpp:529-540 | the page stack's back rule, told whether the current page has menu items, picks the new page; the result says whether it changed |
| PageHistory.IndexOfName | src/service/ui_manager/engine/page_construction/page_manager.cpp:18-25 | -1 exactly when no state has the name, otherwise the first position that has it |
| PageHistory.PushMakesCurrent | src/service/ui_manager/engine/page_construction/page_manager.cpp:15-29 | after any push the pushed page is current and no page name occurs twice |
| PageHistory.PushExistingTruncates | src/service/ui_manager/engine/page_construction/page_manager.cpp:18-25 | pushing a page already in the history cuts it back to that page and adds nothing; pushing the current page changes nothing |
| PageHistory.PopOf | src/service/ui_manager/engine/page_construction/page_manager.cpp:31-38 | an empty history pops the main page with cursor and scroll 0; otherwise the popped state and the rest make up the old history |
| PageHistory.PushNewPop | src/service/ui_manager/engine/page_construction/page_manager.cpp:15-38 | a new page pushed and popped gives its state back and restores the history |
| PageHistory.BackTarget | src/service/ui_manager/engine/page_construction/page_manager.cpp:62-79 | on the main page or with interactive content the current page is kept; otherwise the history is popped |
| PageHistory.PageNavigationManager.constructor | src/service/ui_manager/engine/page_construction/page_manager.h:50-53 | an empty history over the page named main |
| PageHistory.PageNavigationManager.PushPage | src/service/ui_manager/engine/page_construction/page_manager.cpp:15-29 | the history becomes the push rule's, keeping names distinct |
| PageHistory.PageNavigationManager.PopPage | src/service/ui_manager/engine/page_construction/page_manager.cpp:31-38 | the last state is removed and returned; an empty history gives the main page's state |
| PageHistory.PageNavigationManager.CurrentPage | src/service/ui_manager/engine/page_construction/page_manager.cpp:40-42 | the name of the state a pop would return |
| PageHistory.PageNavigationManager.PreviousPageState | src/service/ui_manager/engine/page_construction/page_manager.cpp:51-56 | the state that is current after a pop |
| PageHistory.PageNavigationManager.PreviousPage | src/service/ui_manager/engine/page_construction/page_manager.cpp:44-49 | the name of the previous state |
| PageHistory.PageNavigationManager.CanGoBack | src/service/ui_manager/engine/page_construction/page_manager.cpp:58-60 | true exactly when a pop would shorten the history |
| PageHistory.PageNavigationManager.HandleBackNavigation | src/service/ui_manager/engine/page_construction/page_manager.cpp:62-79 | the target and the history left are the back-navigation rule's |
| PageHistory.PageNavigationManager.ClearStack | src/service/ui_manager/engine/page_construction/page_manager.cpp:81-83 | the history is empty |
| PageHistory.PageNavigationManager.SetMainPage | src/service/ui_manager/engine/page_construction/page_manager.h:43 | the main page changes and the history does not |
| StringMaps.LexIrreflexive | src/service/ui_manager/page_registry.cpp:58-60 | no name sorts before itself in the key order the registry's map iterates in |
| StringMaps.LexTotal | src/service/ui_manager/page_registry.cpp:58-60 | two different names are ordered exactly one way round |
| StringMaps.LexTransitive | src/service/ui_manager/page_registry.cpp:58-60 | the key order is transitive |
| StringMaps.SortedUnique | src/service/ui_manager/page_registry.cpp:54-63 | two strictly sorted name lists with the same members are equal, so the map's listing is determined by its keys |
| StringMaps.Lookup | src/service/ui_manager/engine/page_construction/page_constructor.cpp:12-18 | a find with a default yields the stored value for a present key and the default for a missing one |
| StringMaps.StoreSize | src/service/ui_manager/engine/page_construction/page_constructor.cpp:8-10 | storing under a key grows the map by one exactly when the key is new, reads back the stored value and leaves other keys' values alone |
| StringMaps.EraseSize | src/service/ui_manager/engine/page_construction/page_constructor.cpp:20-27 | erasing a present key shrinks the map by one; erasing an absent key changes nothing; the key is absent afterwards |
| StringMaps.LeastKey | src/service/ui_manager/page_registry.cpp:58-60 | returns a key of the set that sorts before every other key |
| StringMaps.SortedKeys | src/service/ui_manager/page_registry.cpp:54-63 | lists every key once, in strictly increasing order, as many names as the map has entries |
| SharedData.SharedDataStore.constructor | src/service/ui_manager/engine/page_construction/page_constructor.cpp:6 | the shared store starts empty |
| SharedData.SharedDataStore.SetSharedData | src/service/ui_manager/engine/page_construction/page_constructor.cpp:8-10 | stores or overwrites the value; the count grows by one only for a new key |
| SharedData.SharedDataStore.GetSharedData | src/service/ui_manager/engine/page_construction/page_constructor.cpp:12-18 | returns the stored value when the key is present and the caller's default otherwise |
| SharedData.SharedDataStore.RemoveSharedData | src/service/ui_manager/engine/page_construction/page_constructor.cpp:20-27 | returns true exactly when the key was present; the key is gone afterwards and the count drops by one only when it was removed |
| SharedData.SharedDataStore.ClearSharedData | src/service/ui_manager/engine/page_construction/page_constructor.cpp:33-35 | the store is empty and its count is 0 |
| SharedData.SharedDataStore.HasSharedData | src/service/ui_manager/engine/page_construction/page_constructor.cpp:29-31 | a stored key means the store is not empty |
| SharedData.SharedDataStore.GetSharedDataCount | src/service/ui_manager/engine/page_construction/page_constructor.cpp:37-39 | the count is 0 exactly when the store is empty |
| SharedData.GetAfterSet | src/service/ui_manager/engine/page_construction/page_constructor.cpp:8-18 | a get after a set returns the set value whatever the default, and other keys read as before |
| SharedData.GetAfterRemove | src/service/ui_manager/engine/page_construction/page_constructor.cpp:12-27 | after a removal the key reads as the default and is reported absent |
| PageRegistries.RegisterOf | src/service/ui_manager/page_registry.cpp:16-23 | an empty name or null constructor leaves the registry unchanged; otherwise the name maps to the constructor and no other entry changes |
| PageRegistries.ReregisterKeepsCount | src/service/ui_manager/page_registry.cpp:16-23 | registering a name already present replaces its constructor without changing the count |
| PageRegistries.PageRegistry.constructor | src/service/ui_manager/page_registry.h:79 | the registry starts empty |
| PageRegistries.PageRegistry.RegisterPage | src/service/ui_manager/page_registry.cpp:16-23 | succeeds exactly for a non-empty name and a non-null constructor, which a later get returns; the count grows only for a new name |
| PageRegistries.PageRegistry.GetPage | src/service/ui_manager/page_registry.cpp:25-31 | returns the registered constructor, or null exactly when has_page is false |
| PageRegistries.PageRegistry.HasPage | src/service/ui_manager/page_registry.cpp:33-35 | a registered name means the registry is not empty |
| PageRegistries.PageRegistry.GetPageCount | src/service/ui_manager/page_registry.cpp:50-52 | the count is 0 exactly when no page is registered |
| PageRegistries.PageRegistry.UnregisterPage | src/service/ui_manager/page_registry.cpp:37-44 | returns true exactly when the name was registered; afterwards it is not, and the count drops by one only then |
| PageRegistries.PageRegistry.ClearAllPages | src/service/ui_manager/page_registry.cpp:46-48 | the registry is empty and its count is 0 |
| PageRegistries.PageRegistry.GetAllPageNames | src/service/ui_manager/page_registry.cpp:54-63 | every registered name exactly once, in string order, with get_page_count elements |
| PageRegistries.PageRegistry.RegisterDefaultPages | src/service/ui_manager/page_registry.cpp:65-84 | registers main, main_menu and selector_test and then the internal pages |
| PageRegistries.PageRegistry.RegisterInternalPages | src/service/ui_manager/page_registry.cpp:86-94 | registers __error__ and then __int_setting__ |
| PageRegistries.DefaultNamesSorted | src/service/ui_manager/page_registry.cpp:65-94 | the five default names in the order __error__, __int_setting__, main, main_menu, selector_test are strictly sorted |
| PageRegistries.DefaultKeys | src/service/ui_manager/page_registry.cpp:65-94 | the defaults on an empty registry register exactly those five names |
| PageRegistries.DefaultListing | src/service/ui_manager/page_registry.cpp:54-94 | on an empty registry, after the defaults get_all_page_names can only be that five-name list |
| UiManager.FKeyName | src/service/ui_manager/ui_manager.cpp:913-924 | the label of function key n is "F" followed by n's decimal digits |
| UiManager.KeyName | src/service/ui_manager/ui_manager.cpp:902-927 | a key code has a label other than "Unknown" exactly for A, S, D, F, J, K, L, Space, Enter and F1 to F12 |
| UiManager.DigitKey | src/service/ui_manager/ui_manager.cpp:949-951 | a digit names the keyboard's key for that digit, the same key the HID string typer uses |
| UiManager.KeyCodeFromName | src/service/ui_manager/ui_manager.cpp:929-1021 | a single letter of either case names its letter key, a single digit its digit key, and the empty name and "Clear" name no key |
| UiManager.LetterCaseIgnored | src/service/ui_manager/ui_manager.cpp:939-947 | the upper- and lower-case forms of a letter name the same key |
| UiManager.NameThenCode | src/service/ui_manager/ui_manager.cpp:902-1021 | every label getKeyName gives reads back as the key it labels |
| UiManager.CodeThenName | src/service/ui_manager/ui_manager.cpp:902-1021 | each of the 21 labelled names reads as a key whose label is that name |
| UiManager.DigitOneIsEnter | src/service/ui_manager/ui_manager.cpp:949-951 | as written, the name "1" gives the Enter key, and the written and corrected readings differ exactly on the single digits 1 to 9 |
| UiManager.MenuUp | src/service/ui_manager/ui_manager.cpp:670-671 | up moves the main-menu cursor back one place, wrapping from the first item to the last (6) |
| UiManager.MenuDown | src/service/ui_manager/ui_manager.cpp:672-674 | down moves the cursor on one place, wrapping from the last item to the first |
| UiManager.MenuUpDownInverse | src/service/ui_manager/ui_manager.cpp:668-675 | within 0..6 both moves stay in the menu and each undoes the other |
| UiManager.SensitivityStep | src/service/ui_manager/ui_manager.cpp:678-684 | a sensitivity step stays within 0..63 and is exactly one step whenever that stays in range |
| UiManager.SensitivityStepBack | src/service/ui_manager/ui_manager.cpp:678-684 | below the top, a step down undoes a step up |
| UiManager.HistoryAdd | src/service/ui_manager/ui_manager.cpp:1958-1966 | the new error is last, at most 50 are kept, and only when 50 were held is the oldest dropped |
| UiManager.LastN | src/service/ui_manager/ui_manager.cpp:1958-1966 | the last n entries of a sequence, or all of them, are a suffix of it |
| UiManager.AddAll | src/service/ui_manager/ui_manager.cpp:1958-1966 | repeated additions never hold more than 50 errors |
| UiManager.HistoryKeepsLatest | src/service/ui_manager/ui_manager.cpp:1958-1966 | reporting errors one after another keeps exactly the latest 50, oldest first |
| UiManager.Toggle | src/service/ui_manager/ui_manager.cpp:1987-1993 | an absent index is appended; a present one is removed once, shortening the selection by one |
| UiManager.ToggleFlips | src/service/ui_manager/ui_manager.cpp:1987-1993 | on a selection without repeats, toggling flips the membership of that index only and keeps the selection free of repeats |
| UiManager.ToggleTwice | src/service/ui_manager/ui_manager.cpp:1987-1993 | toggling the same index twice restores the selected set |
| UiManager.LightBitmapBits | src/service/ui_manager/ui_manager.cpp:2004-2009 | bit j of the bitmap is set exactly when LED j is selected and below 16, and the bitmap fits 16 bits |
| UiManager.LightBitmapAllBits | src/service/ui_manager/ui_manager.cpp:2004-2009 | the bitmap's bits are exactly the selected LEDs below 16 |
| UiManager.Pow2Mono | src/service/ui_manager/ui_manager.cpp:2007 | a lower single-bit mask is smaller than a higher one |
| UiManager.StoiRoundTrip | src/service/ui_manager/ui_manager.cpp:2012-2016 | reading back a number written with std::to_string gives the number |
| UiManager.RegionNameRoundTrip | src/service/ui_manager/ui_manager.cpp:1974-1980 | the region named when region n is selected is read back as region n modulo 256 |
| UiManager.SaveOf | src/service/ui_manager/ui_manager.cpp:1998-2027 | a save writes nothing without a region, a light manager or a readable region number; otherwise its bitmap is exactly the selected LEDs below 16 and fits 16 bits |
| UiManager.IsPageValid | src/service/ui_manager/ui_manager.cpp:1602-1604 | a page can be switched to exactly when it comes before the guided-binding page, the first eight pages |
| UiManager.UIManager.constructor | src/service/ui_manager/ui_manager.cpp:103-130 | starts on the status page with menu cursor 0, no navigation time, no errors and nothing selected |
| UiManager.UIManager.SetCurrentPage | src/service/ui_manager/ui_manager.cpp:419-439 | refuses pages outside 0..7; the current page is accepted with no change; otherwise the old page becomes the previous page, a redraw is requested and the page data are reset |
| UiManager.UIManager.ResetPageData | src/service/ui_manager/ui_manager.cpp:442-448 | the page's progress value is reset to 0 |
| UiManager.UIManager.HandleNavigationInput | src/service/ui_manager/ui_manager.cpp:657-711 | events within 200 ms of the last accepted one (mod 2^32) are dropped; otherwise the main page wraps its cursor, the sensitivity page steps its value in 0..63 and hands it on when a device is selected, and other pages only record the time |
| UiManager.UIManager.AddErrorToHistory | src/service/ui_manager/ui_manager.cpp:1958-1966 | the history becomes HistoryAdd of the old history, so it keeps at most 50 |
| UiManager.UIManager.HandleLightRegionSelection | src/service/ui_manager/ui_manager.cpp:1974-1980 | names the region "Region n", clears the LED selection, and that name reads back as region n mod 256 |
| UiManager.UIManager.HandleNeopixelSelection | src/service/ui_manager/ui_manager.cpp:1982-1996 | refuses indices outside 0..31; otherwise toggles the index, so it is selected exactly when it was not |
| UiManager.UIManager.SaveLightMapping | src/service/ui_manager/ui_manager.cpp:1998-2027 | the write made is SaveOf of the region, the light manager's presence and the selection; a redraw is requested when it is made |
| UiManager.UIManager.ClearLightMapping | src/service/ui_manager/ui_manager.cpp:2030-2055 | with a region and a light manager, writes a zero bitmap for the region and clears the selection; otherwise changes nothing |
| CommunicationSettingsPage.Shown | src/service/ui_manager/page/communication_settings/communication_settings.cpp:195-225 | the shown rate is never above the rate, is less than a tenth of its unit below it, and is exact for whole units and rates below 1000 |
| CommunicationSettingsPage.ReadWhole | src/service/ui_manager/page/communication_settings/communication_settings.cpp:195-225 | a whole number of units followed by its suffix reads back as itself |
| CommunicationSettingsPage.ReadTenths | src/service/ui_manager/page/communication_settings/communication_settings.cpp:195-225 | a rate with a tenths digit reads back as its units and tenths |
| CommunicationSettingsPage.FormatThenRead | src/service/ui_manager/page/communication_settings/communication_settings.cpp:195-225 | the baud text reads back as the rate truncated to a tenth of its unit |
| CommunicationSettingsPage.BaudIndexStep | src/service/ui_manager/page/communication_settings/communication_settings.cpp:80-108 | up moves to the next preset unless at the last, down to the previous unless at the first; the index stays a preset |
| CommunicationSettingsPage.BoundedStep | src/service/ui_manager/page/communication_settings/communication_settings.cpp:110-121 | up adds one below the bound, down subtracts one above zero, otherwise the value stays; a value in range stays in range |
| CommunicationSettingsPage.StepBack | src/service/ui_manager/page/communication_settings/communication_settings.cpp:110-121 | below the bound, up then down returns to the start |
| CommunicationSettingsPage.CommunicationSettings.constructor | src/service/ui_manager/page/communication_settings/communication_settings.cpp:14-24 | both links start at 115200 baud at preset 1, with everything else off or zero |
| CommunicationSettingsPage.CommunicationSettings.FindBaudRateIndex | src/service/ui_manager/page/communication_settings/communication_settings.cpp:184-193 | the result is the first preset equal to the rate, or preset 1 when none is |
| CommunicationSettingsPage.CommunicationSettings.OnSerialBaudRateChange | src/service/ui_manager/page/communication_settings/communication_settings.cpp:80-93 | the serial preset takes one step, its rate follows only when the index moves, the settings are applied and nothing else changes |
| CommunicationSettingsPage.CommunicationSettings.OnLightBaudRateChange | src/service/ui_manager/page/communication_settings/communication_settings.cpp:95-108 | the light preset takes one step, its rate follows only when the index moves, the settings are applied and nothing else changes |
| CommunicationSettingsPage.CommunicationSettings.OnSerialDelayChange | src/service/ui_manager/page/communication_settings/communication_settings.cpp:110-121 | the serial delay steps within [0, 100] and nothing else changes |
| CommunicationSettingsPage.CommunicationSettings.OnKeyboardMappingToggle | src/service/ui_manager/page/communication_settings/communication_settings.cpp:123-126 | the keyboard mapping flag flips and nothing else changes |
| CommunicationSettingsPage.CommunicationSettings.OnSendOnlyOnChangeToggle | src/service/ui_manager/page/communication_settings/communication_settings.cpp:236-239 | the send-only-on-change flag flips and nothing else changes |
| CommunicationSettingsPage.CommunicationSettings.OnDataAggregationDelayChange | src/service/ui_manager/page/communication_settings/communication_settings.cpp:241-252 | the aggregation delay steps up only while below the serial delay and down to zero, so it never passes the serial delay |
| CommunicationSettingsPage.CommunicationSettings.OnExtraSendCountChange | src/service/ui_manager/page/communication_settings/communication_settings.cpp:254-265 | the extra send count steps within [0, 10] and nothing else changes |
| CommunicationSettingsPage.CommunicationSettings.LoadCurrentSettings | src/service/ui_manager/page/communication_settings/communication_settings.cpp:128-154 | with an input manager its settings are taken over, without one the serial settings stay; the light rate is the light config's; a listed serial rate selects its own preset |
| KeyboardSettingsPage.AvailableKey | src/service/ui_manager/page/communication_settings/keyboard_settings.cpp:10-28 | position 0 and only position 0 offers no key |
| KeyboardSettingsPage.AvailableKeysDistinct | src/service/ui_manager/page/communication_settings/keyboard_settings.cpp:10-28 | no key is offered twice |
| KeyboardSettingsPage.FunctionKeyName | src/service/ui_manager/page/communication_settings/keyboard_settings.cpp:30-37 | the name of function key n reads back as n |
| KeyboardSettingsPage.KeyNameRoundTrip | src/service/ui_manager/page/communication_settings/keyboard_settings.cpp:30-37 | every shown name reads back as its own position |
| KeyboardSettingsPage.KeyNamesDistinct | src/service/ui_manager/page/communication_settings/keyboard_settings.cpp:30-37 | no two choices share a name |
| KeyboardSettingsPage.KeyIndexFrom | src/service/ui_manager/page/communication_settings/keyboard_settings.cpp:158-165 | the first position from i on that offers the key, or 0 when none does |
| KeyboardSettingsPage.KeyIndex | src/service/ui_manager/page/communication_settings/keyboard_settings.cpp:158-165 | the position offering the key, or the position of no key when it is not offered |
| KeyboardSettingsPage.FindKeyIndex | src/service/ui_manager/page/communication_settings/keyboard_settings.cpp:158-165 | the scan finds the position offering the key, or 0 |
| KeyboardSettingsPage.GetKeyName | src/service/ui_manager/page/communication_settings/keyboard_settings.cpp:150-156 | the name shown is the one at the key's position, and it reads back as that position |
| KeyboardSettingsPage.KeyStep | src/service/ui_manager/page/communication_settings/keyboard_settings.cpp:82-110 | up moves to the next key and down to the previous one, wrapping at both ends |
| KeyboardSettingsPage.KeyStepInverse | src/service/ui_manager/page/communication_settings/keyboard_settings.cpp:82-110 | up and down undo each other |
| KeyboardSettingsPage.GpioNameRoundTrip | src/service/ui_manager/page/communication_settings/keyboard_settings.cpp:167-174 | a GPIO name reads back as its pin, so different pins get different names |
| KeyboardSettingsPage.SavedMeaning | src/service/ui_manager/page/communication_settings/keyboard_settings.cpp:133-148 | exactly the rows with a key are saved, as their pin and key |
| KeyboardSettingsPage.KeyboardSettings.constructor | src/service/ui_manager/page/communication_settings/keyboard_settings.cpp:44-49 | the page starts with no rows, not loaded and nothing saved |
| KeyboardSettingsPage.KeyboardSettings.LoadKeyMappings | src/service/ui_manager/page/communication_settings/keyboard_settings.cpp:112-131 | one row per physical key showing its default key; no rows without an input manager |
| KeyboardSettingsPage.KeyboardSettings.Open | src/service/ui_manager/page/communication_settings/keyboard_settings.cpp:44-49 | the rows are loaded the first time only |
| KeyboardSettingsPage.KeyboardSettings.SaveKeyMappings | src/service/ui_manager/page/communication_settings/keyboard_settings.cpp:133-148 | with an input manager the saved mappings become those of the rows with a key; without one nothing is saved |
| KeyboardSettingsPage.KeyboardSettings.OnKeyMappingChange | src/service/ui_manager/page/communication_settings/keyboard_settings.cpp:82-110 | the row's key takes one step and its name follows, then the mappings are saved; an index past the rows changes nothing |
| TouchStatus.FormatTouchBitmap | src/service/ui_manager/page/touch_settings/status/touch_status.cpp:60-80 | one character per shown channel: '-' for a disabled channel, '1' for an enabled touched one, '0' for an enabled untouched one |
| AreaSensitivity.RowOf | src/service/ui_manager/page/touch_settings/sensitivity/area_sensitivity.cpp:19-30 | each index falls in exactly one row: A for 0-7, B for 8-15, C for 16-17, D for 18-25 and E from 26 on |
| AreaSensitivity.AreaNameRoundTrip | src/service/ui_manager/page/touch_settings/sensitivity/area_sensitivity.cpp:19-30 | every index's name reads back as the index, so no two indices share a name |
| AreaSensitivity.DeviceMaskOf | src/service/ui_manager/page/touch_settings/sensitivity/area_sensitivity.cpp:32-40 | the channel id is its device byte above its 24-bit channel bitmap |
| AreaSensitivity.ChannelBitmapOf | src/service/ui_manager/page/touch_settings/sensitivity/area_sensitivity.cpp:42-75 | the channel bitmap lies below bit 24 |
| AreaSensitivity.LowestSetBitFrom | src/service/ui_manager/page/touch_settings/sensitivity/area_sensitivity.cpp:42-75 | the result is the lowest set bit from i on below bit 24, and none exactly when no such bit is set |
| AreaSensitivity.LowestSetBit | src/service/ui_manager/page/touch_settings/sensitivity/area_sensitivity.cpp:42-75 | the scan finds the lowest set channel bit |
| AreaSensitivity.AreaEntry | src/service/ui_manager/page/touch_settings/sensitivity/area_sensitivity.cpp:42-75 | each area's shown value lies in 0-99 and an unbound area shows 0 |
| AreaSensitivity.WritesMeaning | src/service/ui_manager/page/touch_settings/sensitivity/area_sensitivity.cpp:77-87 | the write-backs name exactly the bound areas, once each in increasing order, each with its value clamped to 0-99 |
| AreaSensitivity.AreaSensitivityPage.constructor | src/service/ui_manager/page/touch_settings/sensitivity/area_sensitivity.cpp:16-17 | the page starts with no values and not initialised |
| AreaSensitivity.AreaSensitivityPage.InitAreaValues | src/service/ui_manager/page/touch_settings/sensitivity/area_sensitivity.cpp:42-75 | with an input manager every area's value and bound flag come from its channel id and the sensor's reading |
| AreaSensitivity.AreaSensitivityPage.OnSensitivityComplete | src/service/ui_manager/page/touch_settings/sensitivity/area_sensitivity.cpp:77-87 | the bound areas' clamped values are handed back, none without an input manager |
| BindingSettings.UiStateOf | src/service/ui_manager/page/binding_settings/binding_settings.cpp:138-166 | the page shows an error exactly without an input manager, and binding exactly while the manager waits for or processes a touch |
| BindingSettings.ProgressIsPercentage | src/service/ui_manager/page/binding_settings/binding_settings.cpp:169-189 | while binding the progress grows with the area index, stays within 100 and is 100 exactly after the last area; idle shows 100 and other states 0 |
| BindingSettings.AreaNamesAgree | src/service/ui_manager/page/binding_settings/binding_settings.cpp:269-285 | the binding page's area names are those of the sensitivity page |
| BindingSettings.Mai2AreaNameRoundTrip | src/service/ui_manager/page/binding_settings/binding_settings.cpp:269-285 | each binding area name reads back as its index, so the names are distinct |
| BindingSettings.CurrentBindingArea | src/service/ui_manager/page/binding_settings/binding_settings.cpp:191-214 | while binding the text names the current area, past the last area or when idle it says done, otherwise it is empty |
| BindingSettings.BindingSettingsPage.constructor | src/service/ui_manager/page/binding_settings/binding_settings.cpp:15-17 | the page starts idle |
| BindingSettings.BindingSettingsPage.GetCurrentBindingState | src/service/ui_manager/page/binding_settings/binding_settings.cpp:138-166 | the result is the state the manager's binding state maps to, and it is stored unless there is no manager |
| ZoneSensitivity.ZoneOfArea | src/service/ui_manager/page/touch_settings/sensitivity/zone_sensitivity.cpp:157-181 | exactly the 34 areas have a zone, named by the row letter of the area's own name |
| ZoneSensitivity.PackedFields | src/service/ui_manager/page/touch_settings/sensitivity/zone_sensitivity.cpp:183-203 | the packed target keeps the sensor mask in the top byte and the channels below it |
| ZoneSensitivity.ChannelsAt | src/service/ui_manager/page/touch_settings/sensitivity/zone_sensitivity.cpp:89-155 | a zone's channels for a sensor are those of that sensor's bitmap |
| ZoneSensitivity.ChannelsAbsent | src/service/ui_manager/page/touch_settings/sensitivity/zone_sensitivity.cpp:89-155 | a sensor without a bitmap in the zone contributes no channel |
| ZoneSensitivity.MergeChannel | src/service/ui_manager/page/touch_settings/sensitivity/zone_sensitivity.cpp:129-146 | merging ORs the channel into the sensor's bitmap, or adds a bitmap for a new sensor; other sensors keep their channels and masks stay distinct |
| ZoneSensitivity.EmptyZones | src/service/ui_manager/page/touch_settings/sensitivity/zone_sensitivity.cpp:89-100 | five empty zones named A to E |
| ZoneSensitivity.ScanDevice | src/service/ui_manager/page/touch_settings/sensitivity/zone_sensitivity.cpp:119-150 | only the area's zone changes, and it gains exactly the connected sensor's channels mapped to that area |
| ZoneSensitivity.GetZoneBindingInfo | src/service/ui_manager/page/touch_settings/sensitivity/zone_sensitivity.cpp:89-155 | every zone holds exactly the channels some connected sensor maps to one of its areas; without an input manager or sensors the zones are empty |
| ZoneSensitivity.Int8 | src/service/ui_manager/page/touch_settings/sensitivity/zone_sensitivity.cpp:228-253 | a store into int8_t wraps into -128..127 and keeps values already there |
| ZoneSensitivity.TargetStepRange | src/service/ui_manager/page/touch_settings/sensitivity/zone_sensitivity.cpp:228-253 | a step lands on a level from low to ultra, moving by at most one level, and never on the unchanged option |
| ZoneSensitivity.TargetsFor | src/service/ui_manager/page/touch_settings/sensitivity/zone_sensitivity.cpp:183-203 | one calibration target per sensor bitmap of the zone, in order, each carrying the packed mask and the level |
| ZoneSensitivity.ZoneSensitivityPage.constructor | src/service/ui_manager/page/touch_settings/sensitivity/zone_sensitivity.cpp:16-18 | the page starts with no zones |
| ZoneSensitivity.ZoneSensitivityPage.LoadZones | src/service/ui_manager/page/touch_settings/sensitivity/zone_sensitivity.cpp:42-44 | zones are collected only while the list is empty, and then hold the channels bound to them |
| ZoneSensitivity.ZoneSensitivityPage.SetZoneTargetSensitivity | src/service/ui_manager/page/touch_settings/sensitivity/zone_sensitivity.cpp:183-203 | with an input manager and a real level the zone's sensors all get the target; the unchanged option or no manager sends nothing |
| ZoneSensitivity.ZoneSensitivityPage.OnZoneSensitivityChange | src/service/ui_manager/page/touch_settings/sensitivity/zone_sensitivity.cpp:228-253 | the zone's target steps up or down one level and is sent to its sensors; a zone past the list changes nothing |
| Ad7147Tools.AfeRawRoundTrip | src/protocol/touch_sensor/ad7147/ad7147.h:87-99 | packing the AFE offset fields into the register keeps every field and leaves the unused bits 6 and 14 clear |
| Ad7147Tools.RawAfeRoundTrip | src/protocol/touch_sensor/ad7147/ad7147.h:87-99 | a register value with the unused bits clear is exactly the fields it holds |
| Ad7147Tools.AfeForFields | src/protocol/touch_sensor/ad7147/ad7147_ctools.cpp:19-41 | an offset up to 63 goes to the chosen direction's field alone; 64-127 puts offset-64 in both fields and swaps the other direction; the offset read back is the one asked for below 128; the negative direction mirrors the positive |
| Ad7147Tools.PreparedResets | src/protocol/touch_sensor/ad7147/ad7147_ctools.cpp:4-16 | preparing a stage keeps its connections, clears the offsets, sets the default sensitivity and opens the clamps; it depends only on the connections and preparing twice is preparing once |
| Ad7147Tools.OffsetAndClampReadBack | src/protocol/touch_sensor/ad7147/ad7147_ctools.cpp:43-61 | an offset or clamp set for one direction reads back, and the other direction and every other register are untouched |
| Ad7147Tools.MinStaysZero | src/protocol/touch_sensor/ad7147/ad7147_ctools.cpp:64-73 | as written, the minimum of any run of readings from a cleared record stays 0 |
| Ad7147Tools.MinStaysZeroExample | src/protocol/touch_sensor/ad7147/ad7147_ctools.cpp:64-73 | readings 100 and 200 leave the minimum at 0 as written, and give 100 as intended |
| Ad7147Tools.CdcRunMeaning | src/protocol/touch_sensor/ad7147/ad7147_ctools.cpp:64-73 | after a run the count is the number of readings, the minimum and maximum are readings bounding all of them, and the average lies between the two |
| Ad7147Tools.TriggleRunCounts | src/protocol/touch_sensor/ad7147/ad7147_ctools.cpp:75-79 | each reading is counted once, as a trigger exactly when its stage bit is set |
| Ad7147Tools.DoneAfterTarget | src/protocol/touch_sensor/ad7147/ad7147_ctools.cpp:64-79 | a sampling call reports done exactly once 50 readings have been counted before it |
| Ad7147Tools.CdcSampleResult.constructor | src/protocol/touch_sensor/ad7147/ad7147.h:384-389 | the CDC record starts with all fields zero |
| Ad7147Tools.CdcSampleResult.Clear | src/protocol/touch_sensor/ad7147/ad7147.h:390-395 | clearing zeroes the average, maximum, minimum and count |
| Ad7147Tools.TriggleSample.constructor | src/protocol/touch_sensor/ad7147/ad7147.h:398-402 | the trigger record starts with all counters zero |
| Ad7147Tools.TriggleSample.Clear | src/protocol/touch_sensor/ad7147/ad7147.h:403-407 | clearing zeroes both counters and the count |
| Ad7147Tools.CalibrationTools.constructor | src/protocol/touch_sensor/ad7147/ad7147.h:119-135 | the tool starts from the given stage configurations |
| Ad7147Tools.CalibrationTools.SetStageConfig | src/protocol/touch_sensor/ad7147/ad7147_ctools.cpp:14-15 | the stage's stored configuration becomes the given one and the others are untouched |
| Ad7147Tools.CalibrationTools.ClearAndPrepare | src/protocol/touch_sensor/ad7147/ad7147_ctools.cpp:4-16 | the stage becomes its prepared configuration and the others are untouched |
| Ad7147Tools.CalibrationTools.SetAfeOffset | src/protocol/touch_sensor/ad7147/ad7147_ctools.cpp:19-41 | only the stage's AFE offset changes, to the fields for the direction and offset |
| Ad7147Tools.CalibrationTools.SetOffset | src/protocol/touch_sensor/ad7147/ad7147_ctools.cpp:43-51 | only the stage's offset for the direction changes |
| Ad7147Tools.CalibrationTools.SetClamp | src/protocol/touch_sensor/ad7147/ad7147_ctools.cpp:53-61 | only the stage's clamp for the direction changes |
| Ad7147Tools.CalibrationTools.ReadCdc50Sample | src/protocol/touch_sensor/ad7147/ad7147_ctools.cpp:64-73 | the record takes one sampling step with the minimum seeded by the first reading, and done is reported once 50 readings were counted |
| Ad7147Tools.CalibrationTools.ReadTriggle50Sample | src/protocol/touch_sensor/ad7147/ad7147_ctools.cpp:75-79 | the record takes one counting step, and done is reported once 50 readings were counted |
| FastTrigger.XDeltaIsShare | SensorFirmware/TouchSensor/module/trigger/fast_trigger.c:25-34 | for shares up to 1000 per mille the threshold is the share of the baseline rounded down and never above the baseline |
| FastTrigger.InactiveChannel | SensorFirmware/TouchSensor/module/trigger/fast_trigger.c:108-110 | a channel not reported by the base status is never withheld, is marked for a fresh start and keeps its extrema |
| FastTrigger.FreshActivation | SensorFirmware/TouchSensor/module/trigger/fast_trigger.c:53-58 | the first cycle after a fresh start does not depend on the old extrema, is not withheld once the clock has started, and clears the fresh-start flag |
| FastTrigger.TrackedBrackets | SensorFirmware/TouchSensor/module/trigger/fast_trigger.c:59-74 | the tracked extrema bracket the cycle's reading |
| FastTrigger.WithheldOnDrop | SensorFirmware/TouchSensor/module/trigger/fast_trigger.c:75-105 | a reported channel is withheld exactly when its newest extreme is the low one and the signal dropped from the high one by more than the threshold |
| FastTrigger.RiseForgetsLow | SensorFirmware/TouchSensor/module/trigger/fast_trigger.c:87-97 | a swing beyond the threshold that is a rise forgets the low extreme and keeps the channel reported |
| FastTrigger.FastTriggerState.constructor | SensorFirmware/TouchSensor/module/trigger/fast_trigger.c:13-16 | the channel records start zeroed, the share at its default, every channel enabled and none withheld |
| FastTrigger.FastTriggerState.Init | SensorFirmware/TouchSensor/module/trigger/fast_trigger.c:25-34 | each channel takes its baseline and threshold and is marked for a fresh start; nothing is withheld |
| FastTrigger.FastTriggerState.Process | SensorFirmware/TouchSensor/module/trigger/fast_trigger.c:36-113 | every channel takes one step; the output is the base status with exactly the withheld channels cleared, so it never reports a channel the base status does not |
| FastTrigger.FastTriggerState.SetXPermille | SensorFirmware/TouchSensor/module/trigger/fast_trigger.c:117-123 | every channel's threshold is recomputed from its baseline with the new share |
| FastTrigger.AllSetBits | SensorFirmware/TouchSensor/module/trigger/fast_trigger.c:15 | every bit of the all-ones mask is set |
| UsbSerialLogs.ShouldLogOrder | src/protocol/usb_serial_logs/usb_serial_logs.cpp:315-317 | the minimum level and critical always pass, debug passes everything, passing is upward closed and a level below the minimum never passes |
| UsbSerialLogs.LevelStringsDistinct | src/protocol/usb_serial_logs/usb_serial_logs.cpp:356-365 | each level prints a name of its own |
| UsbSerialLogs.Padded | src/protocol/usb_serial_logs/usb_serial_logs.cpp:378-391 | a zero-padded field is all digits and as wide as the width or the number, whichever is wider |
| UsbSerialLogs.PaddedValue | src/protocol/usb_serial_logs/usb_serial_logs.cpp:378-391 | a padded field reads back as its number |
| UsbSerialLogs.ClockFields | src/protocol/usb_serial_logs/usb_serial_logs.cpp:378-391 | the minutes and seconds are below 60 and the milliseconds below 1000, and together with the hours they make up the timestamp |
| UsbSerialLogs.TimestampLength | src/protocol/usb_serial_logs/usb_serial_logs.cpp:378-391 | a printed timestamp is 12 to 15 characters, with fixed-width minute, second and millisecond fields |
| UsbSerialLogs.TimestampRoundTrip | src/protocol/usb_serial_logs/usb_serial_logs.cpp:378-391 | every printed timestamp reads back as itself |
| UsbSerialLogs.CountedStep | src/protocol/usb_serial_logs/usb_serial_logs.cpp:448-468 | counting an entry moves the total and exactly its own level's counter up by one in 32 bits |
| UsbSerialLogs.CountedKeepsSum | src/protocol/usb_serial_logs/usb_serial_logs.cpp:448-468 | counting keeps the total equal to the sum of the level counters, modulo 2^32 |
| UsbSerialLogs.QueueKeepsNewest | src/protocol/usb_serial_logs/usb_serial_logs.cpp:393-401 | from an empty queue, the queue holds the last capacity entries pushed, oldest first |
| UsbSerialLogs.SerialLogs.constructor | src/protocol/usb_serial_logs/usb_serial_logs.h:41 | a new logger starts at the info level with an empty queue and zero statistics |
| UsbSerialLogs.SerialLogs.AddToQueue | src/protocol/usb_serial_logs/usb_serial_logs.cpp:393-401 | a full queue loses its oldest entry and counts it as dropped; the entry is appended |
| UsbSerialLogs.SerialLogs.UpdateStatistics | src/protocol/usb_serial_logs/usb_serial_logs.cpp:448-468 | the statistics count one more entry of the level |
| UsbSerialLogs.SerialLogs.Log | src/protocol/usb_serial_logs/usb_serial_logs.cpp:101-120 | a filtered-out entry changes nothing; otherwise it is queued or, without buffering, sent at once, and counted |
| UsbSerialLogs.SerialLogs.ProcessQueue | src/protocol/usb_serial_logs/usb_serial_logs.cpp:403-415 | when the link is ready the entries are sent oldest first until one is refused |
| I2cModule.WordBytes | SensorFirmware/TouchSensor/module/i2c/i2c_module.c:72-90 | a register value is sent high byte first and the two bytes put back together are the value |
| I2cModule.RegisterFile.constructor | SensorFirmware/TouchSensor/module/i2c/i2c_module.c:5-10 | the registers start at zero and every channel threshold at its default |
| I2cModule.RegisterFile.ReadRegister | SensorFirmware/TouchSensor/module/i2c/i2c_module.c:98-128 | a channel threshold register reads that channel's threshold, and a register the file does not have reads as 0 |
| I2cModule.RegisterFile.WriteRegister | SensorFirmware/TouchSensor/module/i2c/i2c_module.c:131-159 | a writable register reads back the value, every other register keeps its value, the LED follows bit 0 of its register and a threshold write is flagged |
| I2cModule.RegisterFile.OnWriteComplete | SensorFirmware/TouchSensor/module/i2c/i2c_module.c:67-76 | a write of three bytes or more stores the big-endian value into the addressed register; a shorter one changes nothing |
| I2cModule.RegisterFile.OnAddressDone | SensorFirmware/TouchSensor/module/i2c/i2c_module.c:83-94 | after the address byte the register is selected and its value is staged high byte first; no register changes |
| NeoPixelStrip.WordFields | src/protocol/neopixel/neopixel.h:42-54 | the four bytes of a packed word are read back by from_rgbw |
| NeoPixelStrip.WordOnto | src/protocol/neopixel/neopixel.h:42-54 | every 32-bit word is the packing of its four bytes |
| NeoPixelStrip.Dim | src/protocol/neopixel/neopixel.cpp:466-481 | a chase tail pixel is never brighter than the head in red, green or blue and keeps its white |
| NeoPixelStrip.RainbowHue | src/protocol/neopixel/neopixel.cpp:457-464 | the rainbow hue of every pixel is cut to eight bits |
| NeoPixelStrip.FadeAnimation | src/protocol/neopixel/neopixel.cpp:205-215 | a fade never loops, lasts the given duration and heads for the target colour |
| NeoPixelStrip.BreatheAnimation | src/protocol/neopixel/neopixel.cpp:240-250 | a breathe steps every 20 ms and lasts one period unless it loops, when it has no duration |
| NeoPixelStrip.RangeWrapPaintsNothing | src/protocol/neopixel/neopixel.cpp:128-139 | a range whose end passes 65535 wraps to a small end and paints nothing from its start |
| Mai2Light.PacketData | src/protocol/mai2light/mai2light.cpp:547-575 | a received packet's data array always holds 32 bytes |
| Mai2Light.TrimEndPadding | src/protocol/mai2light/mai2light.cpp:831 | trailing padding is removed and the text before it kept |
| InputManager.RegisterAgainFinds | src/service/input_manager/input_manager.cpp:103-180 | after a successful registration the board's mask is found, connected and the board listed |
| FastTrigger.FastTriggerState.SetEnableMask | SensorFirmware/TouchSensor/module/trigger/fast_trigger.c:125-128 | the enable mask is stored and the share and withheld mask are untouched |

## Left out

- Hardware and timing. These are left out or taken as parameters: register access, DMA, interrupts, PIO, GPIO, I2C and SPI transfers, `time_us_32`/`millis`, random numbers and the FreeRTOS-style task loops of `core.cpp`. The model describes the state those drivers leave behind.
- Floating point is modelled only as mathematical reals, where it appears at all. The configuration's float values, the breathe effect's float brightness and HSV conversion are left out.
- InputMapping.AddHid: the coordinates are `real`, which has no NaN. The source's check `x < 0.0f || x > 1.0f` (input_mapping_manager.cpp:81) is false for a NaN coordinate, so the source accepts and stores NaN; the model cannot show that, and accepts exactly the coordinates in [0, 1].
- Rendering-only code is left out: line, circle and rounded-rectangle drawing, the text, icon, button, progress and slider widgets, and the pages' render functions. The modelled graphics operations are the framebuffer writes and fills.
- `hal_uart`: DMA start-up, the IRQ handlers, hardware initialisation and `trigger_tx_dma` are left out. The rings and their counters are modelled.
- `mai2serial`: the hardware reads and writes and the config getters and setters are left out. `process_commands` is modelled as far as it turns bytes into tokens and replies.
- Mai2Serial.Mai2Serial.SendResponse, Mai2Serial.Mai2Serial.SendCommandResponse: the transmit ring is taken to accept every reply whole. In the source `write_to_tx_buffer` copies only the prefix that fits while one slot stays free (hal_uart.cpp:102-119), and `send_response` returns `bytes_written == full_response.length()` (mai2serial.cpp:120-121). So on a ready port whose ring is nearly full the source queues part of the reply and returns false, where the model logs the whole reply and returns true. No caller in the source reads that result, and `send_command_response` ignores a short write (mai2serial.cpp:281). The ring's capacity is modelled in `HalUart.Uart.WriteToTxBuffer`.
- `mai2light`: several operations are left out:
  - `from_hsv`;
  - the handler chain behind `process_received_data`, except packet parsing;
  - `send_ack` and the EEPROM save and load;
  - `update_fade_effects`;
  - hardware initialisation and the response texts.
- Mai2Light.Mai2Light.SendPacket: takes the packet's data as the fixed 32-byte array the source declares, so a length above 32 is excluded rather than read past the array.
- `light_manager`: several operations are left out:
  - `trigger_region_mapping` and `map_range_to_neopixel`;
  - `update_fade_effects`;
  - the `handle_set_led_*` handlers and their acknowledgements;
  - the replies of `handle_get_board_info`, `handle_get_board_status`, `handle_get_firm_sum` and `handle_get_protocol_version`, which need board identity strings and firmware sums from outside the core;
  - the callbacks.
- LightManager.LightManager.SendAck, LightManager.LightManager.ProcessReceivedByte, LightManager.LightManager.HandleCommand and LightManager.LightManager.HandleEepromCommand: as written `uart_hal_` starts null (light_manager.cpp:95) and the UART and NeoPixel set-up at 143-170 is commented out. So `is_ready()` is always false, `loop()` returns at 513-514, and no byte is received and no acknowledgement is sent. The model takes whether a UART is attached as a constructor parameter. With it false the model shows the code as written: nothing is received or sent. With it true it describes a build where the set-up runs. `loop()`, its `is_ready()` check and the NeoPixel are not modelled.
- LightManager.LightManager.HandleCommand: for the LED and board-information commands it records the packet but states nothing about the acknowledgement sent (board information, status, firmware sum and protocol version replies). The EEPROM, response-control and unknown-command acknowledgements are stated.
- `config_manager`: the flash and EEPROM save and load, the change callbacks, auto-save and the `register_*_configs` default tables are left out. The byte encodings and validation are modelled.
- InputDevices.InputDeviceManager.RegisterTouchSensor, InputDevices.InputDeviceManager.UnregisterTouchSensor and InputDevices.InputDeviceManager.UnregisterAllDevices: the `notifyDeviceStatus` callbacks and the `deinitializeDevice` calls, which call the sensor's own `deinit`, are not modelled; only the device table changes.
- `input_manager`: the `TouchDeviceMapping` struct is not modelled. A board's sensitivities are 24 entries and its HID areas 10 entries.
- InputManager.DelayBuffer.DelayedState: the live state and the clock are parameters. The slot step is written with `% n` for the buffer size `n`. The area computation of `storeDelayedSerialState` is left out.
- `hid`: these operations are left out. Readiness and send results are parameters of the modelled operations.
  - `type_string`;
  - mouse movement, clicks and scrolling;
  - the gamepad reports and `send_custom`/`send_raw`;
  - the descriptors, callbacks and `task`;
  - `release_all_*` and the mouse and gamepad clear functions.
- `hal_usb`: the TinyUSB stack calls are left out.
- `mai_com`: only the touch packet and the `U`/`D` commands are modelled. For `D`, the delay the source parses from `_point[5]` with `atoi` is a parameter.
- `neopixel`: task timing and hardware output are left out. The twinkle effect's random pixel and colour picks are parameters.
- `font_system`: `get_char_data`'s glyph table is a map parameter.
- `ui_manager`: these are not modelled:
  - A null key name is read as the empty string.
  - `std::stoi`'s whitespace skipping and exceptions are not modelled.
  - The reset confirmation strings are left out.
  - `setSensitivity` is recorded as an output.
  - Drawing and time are left out.
  - `int16_t`/`int32_t` fields are unbounded except where a wrap is written out.
- `page_registry`: the page-constructor items are not part of this model. Registration is modelled by page name.
- `communication_settings`: `get_supported_baud_rates` is not part of this model. The page's static variables are one object, and `apply_settings` is recorded as the applied settings.
- `keyboard_settings`: the input manager and `getPhysicalKeyboards` are parameters.
- `area_sensitivity`: the sensitivity read from the board is a parameter and rendering is left out.
- `binding_settings`: the wait-touch and processing states are kept distinct and every other binding state is one "other" state. `start_serial_binding`, `stop_binding`, `confirm_and_save_binding` and `format_binding_state_text` only forward or render and are left out. The `uint8_t` progress wrap is written out.
- `zone_sensitivity`: the device status and mapping are parameters. The special-calibration calls and rendering are left out.
- ZoneSensitivity.TargetStep, ZoneSensitivity.TargetStepRange and ZoneSensitivity.ZoneSensitivityPage.OnZoneSensitivityChange: the clamp bounds `SensitivityOption::LOW` and `ULTRA` are not members of the `SensitivityOption` enum in touch_settings_main.h:13-18; the values 1 and 4 are taken from the field comment at zone_sensitivity.h:37 (0 unchanged, 1 low to 4 ultra).
- ZoneSensitivity.ZoneSensitivityPage.LoadZones: requires every device to report at most 24 channels, since the zone channel bitmap is 24 bits wide.
- `ad7147_ctools`: `setStageConfig` is modelled as a store, and `readStageCDC` is a parameter. The registers are kept as field datatypes; their packing into 16-bit words is not modelled. C `int` overflow in the sums is not modelled.
- Ad7147Tools.CalibrationTools.ReadTriggle50Sample: requires a stage index below 12, the number of stages the chip has.
- `fast_trigger`: only the `NEXT_STATE` variant is modelled. The baseline and raw readings are parameters, the raw reading 16 bits wide. The `uint64_t` timestamps are naturals. The enable mask is stored but unused, as in the source. The getters are left out.
- `i2c_module`: `i2c_init` and the HAL calls, the status flags and `i2c_set_scan_rate` are left out; the LED is the `ledOn` flag, driven by bit 0 of the LED control register. The register switch at i2c_module.c:102-121 uses `REG_LED_CONTROL` and `REG_CAP0_THRESHOLD` to `REG_CAPB_THRESHOLD`, names that i2c_module.h does not define: it defines `REG_CONTROL = 0x2` and `REG_TOUCH_CAP_SETTING_BASE = 0x03` instead. The model takes the LED control register as 0x2 and channel n's threshold register as 0x03 + n, the values of the two defined names. The threshold defaults come from `capsense_module.c`.
- `usb_serial_logs`: the queue is full at `|queue| >= capacity`, with the capacity a parameter. These are parameters or left out:
  - message formatting and the write buffer;
  - flushing and the callbacks;
  - init and deinit;
  - the clock.
  `ReadTimestamp` is the model's own reader for the timestamp text.
- LightManager.ParsePacket, LightManager.LightManager.HandleEepromCommand and LightManager.LightManager.Dispatched: the data bytes past `length` are zero in the model. In the source the packet is an uninitialised local (light_manager.cpp:650) and `parse_packet` copies only `length` bytes (703), so those bytes are indeterminate. A SetEEPRom or GetEEPRom packet with fewer than two data bytes, such as FF 7C 00 7B, therefore uses an indeterminate address and value in the source; the model uses zero for each missing byte.

## Findings

| source | as written | input that shows it | evidently intended | confidence | as-written member | corrected member |
|---|---|---|---|---|---|---|
| src/service/light_manager/light_manager.cpp:413-424 | the load loop checks `offset + 6 > size` but then reads seven fixed bytes, the last being the enabled flag | a stored block `[1, 0, 0, 1, 2, 3, 4, 5, 6]`: count 1 and a record cut off before its enabled byte | refuse a record unless all seven fixed bytes are present | not executed | LightManager.LoadGuardAdmitsShortRecord | LightManager.TruncatedLoad |
| src/service/light_manager/light_manager.cpp:643 | the expected frame length `length + 4` is kept in a `uint8_t` | a length byte of 252 gives an expected length of 0, so the checksum is read at index -1 | compute the frame length without 8-bit wrap-around | not executed | LightManager.ExpectedLengthWraps | LightManager.AssembleInBounds |
| src/protocol/touch_sensor/gtx312l/gtx312l.h:78-79 | the sample's constructor passes the 16-bit device mask as the `uint8_t` address parameter | device mask `0x1000` with touch bitmap `0x0004` yields mask 0 instead of `0x1004` | keep the device bits in the sample mask | not executed | Gtx312l.SampleMaskLosesTouch | Gtx312l.SampleMask |
| core.cpp:162-175 | `check_near_region` reads the right neighbour at `index + 1` without wrapping | areas D1 (19) and E1 (27) sit at index 16 of a 17-entry ring table, so entry 17 is read | wrap the right neighbour to the start of the ring | not executed | CoreRegions.NearRegionReadsPastRing | CoreRegions.NeighboursSymmetric |
| src/service/input_manager/input_manager.cpp:107-151 | the table-full check `count >= 8` runs before the known-mask lookup | eight registered boards, one of which disconnects and reconnects | a known board is reconnected even when the table is full | not executed | InputManager.FullTableRefusesKnownBoard | InputManager.RegisterTwiceIntended |
| src/service/ui_manager/engine/font_system.cpp:122-127 | glyph pixels are addressed as a packed bit stream | the 14-wide default box glyph, stored with 2-byte rows, loses its left edge on row 1 | address each row at its byte pitch | not executed | Fonts.BoxReadPacked | Fonts.BoxGlyphShape |
| src/service/ui_manager/engine/page_construction/page_template.cpp:8-171 | the copy and move constructors and the copy and move assignments of a line configuration do not copy the jump string | a menu jump to page "device" with jump string "TS0" copied into a new line | copy every field, jump string included | not executed | LineConfigs.JumpStrLostOnCopy | LineConfigs.Copy |
| src/service/ui_manager/engine/ui_constructs.cpp:262-272 | the cyclic scan for the previous interactive construct uses C's truncating `%` | two text constructs with nothing selected: navigating up reads index -1 | wrap the index into the construct list | not executed | UiConstructs.NavigateUpReadsBeforeStart | UiConstructs.ConstructPage.FindNextInteractive |
| src/service/ui_manager/engine/ui_constructs.cpp:497-509 | the joystick handler compares the selected line index with menu numbers | a title line over two buttons with the second button selected: the selection stays on the second button | step by menu number | not executed | UiConstructs.JoystickDownStuck | UiConstructs.MenuInteractionSystem.HandleJoystickDown |
| src/service/ui_manager/engine/ui_constructs.cpp:483-495 | the joystick-up handler steps back from the selected line index as if it were a menu number | a title line over two buttons with the first button selected: the selection stays on the first button | step back by menu number | not executed | UiConstructs.JoystickUpStuck | UiConstructs.MenuInteractionSystem.HandleJoystickUp |
| src/service/ui_manager/ui_manager.cpp:949-951 | a one-digit key name gives `KEY_0 + d` | the name "1" gives `KEY_0 + 1`, which is the Enter key | give digit keys their own codes, `1` through `9` then `0` | not executed | UiManager.DigitOneIsEnter | UiManager.DigitKey |
| src/protocol/touch_sensor/ad7147/ad7147_ctools.cpp:64-73 | the running minimum starts at 0 in a cleared record and is only ever lowered | readings `[100, 200]` report a minimum of 0 | start the minimum at the first reading | not executed | Ad7147Tools.MinStaysZero | Ad7147Tools.CdcRunMeaning |
| src/protocol/neopixel/neopixel.cpp:444-446 | the fade progress divides by the duration with no guard, and `task` checks for the end of an animation only when its duration is positive | `fade_to_color(c, 0)` followed by one task update divides by zero | treat a zero-length fade as complete at once, at the target colour | not executed | NeoPixelStrip.ZeroFadeDividesByZero | NeoPixelStrip.FadeProgressGuarded |
