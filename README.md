# Badge firmware and configuration tool, modelled in Dafny

The badge is an ESP8266 with a small OLED display and one RGB pixel. It
runs a single-threaded controller (`src/main.cpp`):

- **`setup`** fills the badge record with defaults:
  - team 1, id 1;
  - colour (0, 0, 128);
  - name "Team 1-1".

  It then applies a stored configuration record, if one was read. Finally it sets a steady flash.
- **`loop`** does two things on every pass:
  - it polls a fixed table of four timed callbacks;
  - it handles one UDP datagram.
- **The datagram** is a one-byte opcode followed by its payload:
  - 1 sets team and id;
  - 2 sets the colour;
  - 3 sets the colour only on the badges of one team;
  - 4 sets the name;
  - 5 asks for an echo.

  The badge answers an echo with `[5, team, id]` and a short green flash.
- **The name** lives in a 256-byte buffer that ends in "\n" and NUL. It scrolls across the display 3 pixels per frame. Saving the configuration strips the newline again.

The host-side tool (`tools/badge_conf.js`) builds the datagrams the badge
decodes.

The project has six modules:

- **`Bytes`** holds the fixed-width integer types. It also models two pieces of C arithmetic explicitly:
  - int16_t truncation;
  - unsigned 32-bit subtraction.
- **`Scheduler`** models the event table and one poll of it, as values.
- **`Firmware`** models the badge state as values, with a pure function for each operation:
  - the flash state machine;
  - the name buffer and its scroll;
  - the five handlers and the dispatcher;
  - the state changes of the scheduled callbacks;
  - the configuration load of `setup`.

  It also holds the lemmas that state what the firmware promises.
- **`Controller`** holds the class `BadgeController`. It keeps the firmware's globals as fields:
  - the name buffer is an `array<Byte>` of 256;
  - the event table is an `array<Task>`.

  Its methods update those fields in place. Each method is proved to do what the corresponding function of `Firmware` or `Scheduler` specifies.
- **`BadgeConf`** holds the tool's `clamp` and its five payload builders.
- **`EndToEnd`** composes the tool's encoders with the badge's decoder.

Design decisions:

- **Exhausted reads.** A one-byte `udp.read()` past the end of the datagram returns -1, and stored in a `uint8_t` that is 255. The handlers do not check the payload length, so the model reads 255 for every missing byte (`Firmware.ReadAt`). It does not require a payload of any length.
- **The name source.** The source of a name is a byte sequence whose end acts as the C terminator. `strnlen` is `Firmware.CLen`.
- **Text width.** The display's `getTextBounds` becomes an injected function `measure` from the text to its width. The scroll invariant holds when every width is at most 32765 pixels (`MeasureFits`). Below that bound, `offset - 3` never wraps an `int16_t`; `ScrollStepWraps` shows the wrap that happens without it.
- **Flash pointer.** `flash.color` points either at `badge.color` or at the constant echo colour. The model keeps a tag for it (`BadgeColor`/`EchoColor`), so a colour change shows at once, as it does through the pointer.
- **Clamping ranges.**
  - The configuration load clamps team and id to 1..255, not to the handler ranges 1..20 and 1..99 (src/main.cpp:366-367). So the invariant kept across all operations is `1 <= team` and `1 <= id`.
  - The tool clamps the team to 1..50, but the badge clamps it to 1..20. `EndToEnd.TeamLands` proves that tool teams 21..50 land on badge team 20.
  - The tool does not clamp the team byte of command 3 at all. `EndToEnd.TeamColorWraps` shows team 257 reaching the team-1 badges.
- **Tool constants.** `tools/config.js` is not part of this model. The values the tool takes from it are constants in `BadgeConf`:
  - team maximum 50, id maximum 99;
  - command numbers 1..5.

## Model

| member | source | states |
|---|---|---|
| Bytes.ToInt16 | src/main.cpp:165 | storing into an int16_t keeps in-range values and is congruent modulo 2^16 otherwise |
| Bytes.SubU32 | src/main.cpp:253 | `curr - prev` on 32-bit `ulong`: the plain difference when prev <= curr, otherwise the difference plus 2^32 |
| Scheduler.Poll | src/main.cpp:250-257 | after one poll every entry keeps its interval and callback; a due entry has `prev == now`, an entry that is not due keeps its `prev` |
| Scheduler.Due | src/main.cpp:253 | the elapsed-time test: `curr - prev` in 32-bit unsigned arithmetic at least the interval; no contract of its own, its consequences are stated by FiredExactlyTheDue, NoDoubleFire and TableFires |
| Scheduler.Fired | src/main.cpp:250-257 | the callbacks one poll runs, in table order; no contract of its own, characterised by FiredAtDueIndices, FiredExactlyTheDue and FiredSnoc |
| Scheduler.DueIndices | src/main.cpp:252-253 | the indices of the due entries, strictly increasing, each due, and every due entry among them |
| Scheduler.FiredAtDueIndices | src/main.cpp:252-256 | the k-th callback invoked is the callback of the k-th due entry, so callbacks run in table order |
| Scheduler.FiredExactlyTheDue | src/main.cpp:252-256 | a callback runs iff some entry with it is due (elapsed time modulo 2^32 at least its interval); at most one call per entry |
| Scheduler.FiredSnoc | src/main.cpp:252-256 | polling one more entry appends its callback exactly when it is due |
| Scheduler.TableFires | src/main.cpp:243-257 | for the firmware's four-entry table, which of renderName, renderRSSI, renderTeam, renderColor run, in that order |
| Scheduler.NoDoubleFire | src/main.cpp:253-254 | an entry fired at `now` is not due again before its interval has elapsed since `now` |
| Firmware.Constrain | src/main.cpp:263-264 | Arduino `constrain`: a result in [lo, hi], the input when already in range, the nearer bound otherwise |
| Firmware.Trigger | src/main.cpp:169-172 | updateColor: count 0 for 0 pulses; otherwise an odd count, 2n+1 for n < 128, and 2n+1-256 (the uint8_t wrap) from 128 up |
| Firmware.FlashShown | src/main.cpp:237 | the colour renderColor puts on the pixel: off on odd counts, the colour the flash points at on even ones; no contract of its own, its sequence over a whole flash is stated by TriggerSettles |
| Firmware.FlashStep | src/main.cpp:239-240 | renderColor lowers a positive count by one, never below 0, and a count of 0 always points at the badge colour |
| Firmware.FlashRunCounts | src/main.cpp:236-241 | k renderColor calls lower the count by k until it reaches 0, after which the flash is steady on the badge colour |
| Firmware.TriggerSettles | src/main.cpp:169-172 | an n-pulse flash alternates off and its colour, off first, for its whole count, and then rests steady on the badge colour |
| Firmware.TriggerSettlesAfter | src/main.cpp:170 | for n < 128, the flash is still running after each of the first 2n calls of renderColor, so it does not settle before 2n+1 |
| Firmware.TriggerSteadyBy | src/main.cpp:169-172 | for every n > 0, updateColor(c, n) followed by 2n+1 renderColor calls ends steady on the badge colour, also when the uint8_t count wraps from 128 pulses on |
| Firmware.ScrollStep | src/main.cpp:223-225 | the scroll step leaves the length alone; for an offset of at least -32765 it lowers the offset by exactly 3 or resets it to 128; on a valid scroll (length at least -32765) it keeps `length <= offset <= 128` |
| Firmware.ScrollStepWraps | src/main.cpp:223 | without the width bound, `offset -= 3` wraps an int16_t from -32768 to 32765 |
| Firmware.ScrollDescends | src/main.cpp:223-225 | while the text has not scrolled past its end, k frames move it 3k pixels left |
| Firmware.ScrollPeriod | src/main.cpp:223-225 | from the right edge the scroll returns to 128 after (128 - length) / 3 + 1 frames |
| Firmware.CLen | src/main.cpp:158 | strnlen: the count of leading non-NUL bytes, capped at max, stopping on a NUL |
| Firmware.CLenFrom | src/main.cpp:158 | strnlen's scan from position i: the first NUL at or after i, or the cap, or the end, and no NUL before it |
| Firmware.CLenUnique | src/main.cpp:158 | the strnlen properties determine its value |
| Firmware.CLenFromUnique | src/main.cpp:158 | the scan from position i is determined by the same properties |
| Firmware.StrNCpy | src/main.cpp:151-155 | strncpy: the source up to its terminator, NUL padding up to n, the bytes past n untouched |
| Firmware.NameKept | src/main.cpp:151-158 | what updateName keeps of a name: a prefix of at most 254 bytes without NUL, stopping at the first NUL |
| Firmware.StoreName | src/main.cpp:151-159 | the 256-byte buffer updateName leaves: strncpy of 254 bytes, then "\n" and NUL after the kept bytes; its contract gives the size, and StoreNameText and StoreNamePadding state its contents |
| Firmware.StoreNameText | src/main.cpp:149-159 | the buffer updateName leaves is a well-formed name whose text is the kept bytes and "\n", and whose saved name is the kept bytes |
| Firmware.StoreNamePadding | src/main.cpp:151-159 | after the terminators the buffer is NUL up to byte 253, and bytes 254-255 keep their old value unless the terminators land on them |
| Firmware.TerminateAt | src/main.cpp:158-159 | writing "\n" and NUL after k non-NUL bytes makes a C string of k + 1 bytes ending in the newline |
| Firmware.SavedName | src/main.cpp:186-189 | saveConfig's trimmed name plus "\n" is the name text again, and contains no NUL |
| Firmware.SavedLength | src/main.cpp:187 | on a well-formed buffer, strnlen capped at 255 finds the terminator, and cutting one byte drops exactly the newline |
| Firmware.RestartScroll | src/main.cpp:162-166 | the scroll updateName sets: length minus the measured width stored into an int16_t, offset 128; no contract of its own, WithNameValid states it on a valid width |
| Firmware.WithName | src/main.cpp:149-167 | the badge after updateName: the stored buffer and the restarted scroll; no contract of its own, stated by WithNameFields (nothing else changes) and WithNameValid |
| Firmware.WithNameValid | src/main.cpp:149-167 | after updateName the buffer is well formed, the scroll length is minus the measured text width, the offset is 128 and the scroll is valid |
| Firmware.ConfigOf | src/main.cpp:179-190 | the saved record carries team, id and colour, and a name that plus "\n" is the name text |
| Firmware.LoadConfig | src/main.cpp:363-382 | the configuration load sets team and id to `constrain(v, 1, 255)`: the value in range, 1 below, 255 above; the colour is `StoredColor` of the record; the name is loaded through updateName |
| Firmware.StoredColor | src/main.cpp:370-378 | a three-element colour array gives each component clamped to 0..255 (the value in range, 0 below, 255 above); any other array gives the default colour (0, 0, 128) |
| Firmware.LoadConfigName | src/main.cpp:380-382 | the stored name is kept as updateName keeps any name, and the scroll restarts validly |
| Firmware.Boot | src/main.cpp:347-395 | the state setup leaves has a well-formed name buffer |
| Firmware.BootValid | src/main.cpp:347-351 | setup leaves a valid state; without a configuration it has team 1, id 1, colour (0, 0, 128) and name "Team 1-1"; the flash is steady on the badge colour |
| Firmware.DefaultNameKept | src/main.cpp:351 | the default name is kept whole |
| Firmware.ReadAt | src/main.cpp:261-262 | a one-byte read yields the payload byte, or 255 once the payload is exhausted |
| Firmware.TeamChange | src/main.cpp:260-266 | handleTeamChange: team and id bytes constrained to 1..20 and 1..99, then a save; no contract of its own, stated by SetTeamIdClamps |
| Firmware.ColorChange | src/main.cpp:268-276 | handleColorChange: three bytes constrained to 0..255 become the colour, then a save; no contract of its own, stated by SetColorApplies |
| Firmware.TeamColorChange | src/main.cpp:278-282 | handleTeamColorChange: a colour change only when the constrained team byte is the badge's team; no contract of its own, stated by TeamColorFilter |
| Firmware.NameChange | src/main.cpp:284-290 | handleNameChange: at most 254 remaining bytes become the name, then a save; no contract of its own, stated by NameChangeKeeps and SetNameRoundTrip |
| Firmware.EchoRequest | src/main.cpp:292-300 | handleEcho: teams 1..8 reply [5, team, id] and flash the echo colour; no contract of its own, stated by EchoFilter |
| Firmware.Dispatch | src/main.cpp:310-318 | handleRequests: the opcode byte selects one of the five handlers, anything else is dropped; no contract of its own, stated by DispatchOpcode, DispatchValid and UnknownOpcodeIgnored |
| Firmware.DispatchOpcode | src/main.cpp:302-314 | opcode k in 1..5 selects handler[k-1] on the rest of the datagram; empty datagrams and other opcodes are dropped |
| Firmware.NameChangeValid | src/main.cpp:284-290 | a name change keeps the badge state valid |
| Firmware.DispatchValid | src/main.cpp:310-318 | every datagram keeps the state valid (team and id at least 1, name well formed, scroll in range, a finished flash pointing at the badge colour) |
| Firmware.UnknownOpcodeIgnored | src/main.cpp:313-314 | an empty datagram or opcode 0 or above 5 changes no badge, flash or scroll field, sends nothing and saves nothing |
| Firmware.SetTeamIdClamps | src/main.cpp:260-266 | after opcode 1, team is in 1..20 and id in 1..99; each equals its byte when in range and the nearer bound otherwise (a missing byte counts as 255); nothing else changes; one save |
| Firmware.SetColorApplies | src/main.cpp:268-276 | opcode 2 sets the colour to the next three bytes and changes nothing else; a steady flash shows the new colour at once; one save |
| Firmware.TeamColorFilter | src/main.cpp:278-282 | opcode 3 with a clamped team other than the badge's changes nothing and saves nothing; with the badge's team it sets the colour to the next three bytes and saves once |
| Firmware.EchoFilter | src/main.cpp:292-300 | echo on a team above 8: no reply and nothing changes; otherwise exactly one reply [5, team, id] to 10.13.37.100:11337 and the flash becomes (echo colour, count 5) |
| Firmware.NameChangeKeeps | src/main.cpp:284-290 | handleNameChange keeps min(remaining, 254) bytes up to any NUL, ends them with "\n", restarts the scroll at 128, and saves exactly the kept bytes |
| Firmware.NulFreeKept | src/main.cpp:151-158 | a NUL-free name of at most 254 bytes is kept whole |
| Firmware.SetNameRoundTrip | src/main.cpp:284-290 | opcode 4: the name text is the kept bytes and "\n", the offset is 128, team, id, colour and flash are unchanged, and the saved name is the kept bytes |
| Firmware.SetNameSavesVerbatim | src/main.cpp:186-190 | set-name then save is a round trip: a NUL-free name of at most 254 bytes is saved exactly as it was sent |
| Firmware.TeamScenario | src/main.cpp:260-265 | datagram [1, 5, 12] on the default badge gives team 5, id 12 and one save |
| Firmware.ColorScenario | src/main.cpp:268-276 | datagram [2, 255, 0, 128] on a freshly booted badge sets that colour and shows it on the next colour frame |
| Firmware.Act | src/main.cpp:216-241 | the modelled effect of one callback: renderName steps the scroll, renderColor steps the flash and shows a colour, the other two change nothing; no contract of its own, stated by TickEffect and PerformValid |
| Firmware.Perform | src/main.cpp:252-256 | the callbacks of a list run one after another; no contract of its own, stated by PerformSnoc, PerformAppend and PerformValid |
| Firmware.PerformValid | src/main.cpp:216-241 | the scheduled callbacks change only the scroll and the flash, and keep the state valid |
| Firmware.TickEffect | src/main.cpp:243-257 | one poll steps the scroll iff renderName is due, steps the flash and sets the pixel iff renderColor is due, and changes nothing else |
| Firmware.PerformSnoc | src/main.cpp:252-256 | running one more callback runs it on the state the earlier ones left |
| Firmware.PerformAppend | src/main.cpp:252-256 | running a concatenation of callbacks runs its parts in turn |
| Controller.BadgeController.constructor | src/main.cpp:347-395 | setup: the globals equal `Boot(measure, stored)`, they are valid, and the event table is the initial table |
| Controller.BadgeController.ApplyConfig | src/main.cpp:363-382 | the configuration load updates the globals in place as `LoadConfig` specifies |
| Controller.BadgeController.UpdateName | src/main.cpp:149-167 | updateName writes the name array and scroll in place exactly as `WithName` specifies, and changes nothing else |
| Controller.BadgeController.CopyName | src/main.cpp:151-159 | the in-place strncpy and terminator writes leave the array equal to `StoreName` of its old contents |
| Controller.BadgeController.SetScroll | src/main.cpp:162-166 | the scroll fields become the restart for the measured text; team, id, colour and flash are untouched |
| Controller.BadgeController.UpdateColor | src/main.cpp:169-172 | updateColor sets the flash to `Trigger(tag, pulses)` and changes nothing else |
| Controller.BadgeController.SaveConfig | src/main.cpp:186-190 | the saved record is `ConfigOf` the badge: the trimmed name without its newline |
| Controller.BadgeController.RenderName | src/main.cpp:223-225 | the scroll step in place, as the renderName action specifies |
| Controller.BadgeController.RenderColor | src/main.cpp:236-241 | the colour put on the pixel and the flash update, as the renderColor action specifies |
| Controller.BadgeController.Invoke | src/main.cpp:243-248 | calls one callback of the event table, with the effect `Act` specifies |
| Controller.BadgeController.RunEvents | src/main.cpp:250-258 | the event table after the loop is `Poll(table, now)`, the callbacks run are `Fired(table, now)`, and the globals and pixel colours are those of running them in order |
| Controller.BadgeController.RunEntry | src/main.cpp:253-256 | one iteration: it reports whether entry i is due, gives a due entry `prev := now` and runs its callback, and leaves everything unchanged otherwise |
| Controller.BadgeController.HandleTeamChange | src/main.cpp:260-266 | the in-place handler equals `TeamChange` and keeps the state valid |
| Controller.BadgeController.HandleColorChange | src/main.cpp:268-276 | the in-place handler equals `ColorChange` and keeps the state valid |
| Controller.BadgeController.HandleTeamColorChange | src/main.cpp:278-282 | the in-place handler equals `TeamColorChange` and keeps the state valid |
| Controller.BadgeController.HandleNameChange | src/main.cpp:284-290 | the in-place handler equals `NameChange` and keeps the state valid |
| Controller.BadgeController.HandleEcho | src/main.cpp:292-300 | the in-place handler equals `EchoRequest` and keeps the state valid |
| Controller.BadgeController.HandleRequests | src/main.cpp:302-318 | the if-chain over the opcode does what `Dispatch` specifies (handler[cmd - 1] for 1..5) and keeps the state valid |
| Controller.BadgeController.Loop | src/main.cpp:483-495 | one pass outside setup mode: the due callbacks, then one datagram, with the combined effect of `Perform` and `Dispatch`; the state stays valid |
| BadgeConf.Clamp | tools/badge_conf.js:15-17 | clamp(v, a, b) lies in [a, b] when a <= b, is v when already in range, and is the nearer bound otherwise |
| BadgeConf.ToByte | tools/badge_conf.js:31-35 | a number stored into a Buffer byte: kept when in 0..255, congruent modulo 256 otherwise |
| BadgeConf.UpdateTeam | tools/badge_conf.js:29-37 | the payload is exactly [1, clamp(team, 1, 50), clamp(id, 1, 99)] |
| BadgeConf.UpdateColor | tools/badge_conf.js:39-48 | the payload is exactly [2, clamp(r), clamp(g), clamp(b)] of length 4 |
| BadgeConf.UpdateTeamColor | tools/badge_conf.js:50-58 | the payload is [3, team modulo 256, clamp(r), clamp(g), clamp(b)]; the team is not clamped |
| BadgeConf.UpdateName | tools/badge_conf.js:68-72 | the payload is [4] followed by the name's bytes |
| BadgeConf.SendEcho | tools/badge_conf.js:74-78 | the payload is the single byte [5] |
| BadgeConf.ConfigureBadge | tools/badge_conf.js:116-122 | command 6: the team, colour and name payloads for one badge, in that order; no contract of its own, stated by ConfigureLands |
| EndToEnd.TeamLands | tools/badge_conf.js:29-37 | the badge takes team clamp(t, 1, 20) and id clamp(i, 1, 99), so tool teams 21..50 land on team 20 |
| EndToEnd.ColorLands | tools/badge_conf.js:39-48 | the badge takes exactly the colour the tool clamped, and changes nothing else |
| EndToEnd.TeamColorLands | tools/badge_conf.js:50-58 | a badge recolours iff its team equals the tool's team modulo 256 constrained to 1..20; every other badge is left as it was |
| EndToEnd.TeamColorWraps | tools/badge_conf.js:54 | team 257 from the tool recolours the team-1 badges |
| EndToEnd.NameLands | tools/badge_conf.js:68-72 | a NUL-free name is saved as sent, cut to its first 254 bytes when longer |
| EndToEnd.EchoLands | tools/badge_conf.js:74-78 | the echo payload reaches the echo handler |
| EndToEnd.ApplyAll | tools/badge_conf.js:116-122 | handling a list of datagrams in order keeps the name buffer well formed |
| EndToEnd.ApplyCons | tools/badge_conf.js:116-122 | handling a non-empty list handles its first datagram, then the rest |
| EndToEnd.ApplyThree | tools/badge_conf.js:116-122 | handling three datagrams handles each in turn |
| EndToEnd.DispatchWellFormed | src/main.cpp:310-318 | every datagram leaves the name buffer well formed |
| EndToEnd.ConfigureSteps | tools/badge_conf.js:116-122 | the team, colour and name payloads of command 6, one after the other, give the clamped team, id and colour and the sent name, with one save each and no reply |
| EndToEnd.ConfigureLands | tools/badge_conf.js:116-122 | command 6 on a badge gives the clamped team, id and colour and a NUL-free name of at most 254 bytes saved verbatim, with three saves and no reply |
| EndToEnd.NameSaved | src/main.cpp:284-290 | the name handler saves the record of the new badge |

## Left out

- Display and pixel drawing are not modelled. This covers `otaStart`, `otaEnd`, `enableSetupMode`, `runSetupMode`, `renderRSSI`, `renderTeam`, and the drawing calls in `renderName` and `renderColor`. `renderColor`'s colour is returned as the colour put on the pixel.
- WiFi station connect, AP fallback, mDNS, OTA and the setup-mode branch of `loop` are not modelled. They are network plumbing with delays and timeouts.
- File access and JSON are not modelled. The model does not open, read or write `/conf.json`, and it does not pretty-print or parse JSON.
  - The configuration load is modelled from the parsed values on: a `StoredConfig` record, or `None` when no record was applied.
  - `saveConfig` is modelled as the record it would write.
- `updateName` with a NULL name is not modelled. A configuration without "name" makes `strnlen(NULL, …)` undefined behaviour, so `StoredConfig` always carries a name.
- The UDP socket is not modelled. This covers `parsePacket`, `available`, `flush`, `beginPacket` and `endPacket`.
  - The datagram is a byte-sequence parameter, and every reply is returned as a `Reply`.
  - `udp.read(name, length)` into the global 256-byte buffer is modelled as the first `length` payload bytes. `updateName` stops at the first NUL either way.
- `millis()` is not called by the model. The time of a poll is the parameter `now`.
- The tool's argv parsing, `parseInt` and its NaN, and the socket callbacks of `sendPayload` and `updateTeamColor` are not modelled. Nor is the UTF-8 encoding `new Buffer(name)` applies: a name is given as its bytes.
- EndToEnd.ConfigureLands: assumes the three datagrams of command 6 arrive in the order they are sent. The tool sends them on three separate sockets, so UDP does not promise that order.
- Controller.BadgeController.UpdateName: measures the width of the bytes it stores before writing them into the array, whereas updateName measures the buffer after the writes; both measure the same bytes.
- Firmware.FlashShown: `flash.count & 1` is written as `count % 2`, which is the same test on a uint8_t.
- Firmware.WithNameValid: the scroll invariant is proved only for displays whose text widths are at most 32765 pixels (`MeasureFits`). Wider text wraps the int16_t arithmetic, as `ScrollStepWraps` shows.
- `tools/echo_multicast.js` and `tools/generate_conf.js` are not part of this model.
