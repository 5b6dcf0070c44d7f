# Air-quality station: a Dafny model of its decision logic

The firmware reads an ENS160 air-quality sensor and drives an SSD1306 display. Both devices sit on one I2C bus. This project models the firmware's decision procedures. The internals of the drivers, the bus, the executor and the timers are not modelled: whether each call succeeds, and what it answers, is a parameter, and the calls made come back as a trace. One effect is assumed rather than left open: what a display flush does to the panel (see "## Left out").

- **Sensor discovery** (`init_ens`). `Sense.InitEns` tries the primary address first. If that fails, it releases the handle, rebinds the same endpoint at the secondary address and tries once more. If both fail, it releases the handle and returns `Err("Faild to init ens160")`. It returns the result together with the trace of `New`/`Initialize`/`Release` calls. The discovery state machine (`TryPrimary → TrySecondary → Done | Failed`) is written as a separate reference definition, `Sense.Run`, and `InitEns` is proved to agree with it.
- **Start gating** (`start_sense`, `init_display`, `start_display`). A task is spawned only after its device initialised, and with that device. An init error passes through unchanged. A rejected spawn becomes the fixed spawn message.
- **Sampling loop** (`sense_task`). `Sense.SenseTask` is a method with a `while` loop. Each iteration reads the status. It reads the measurements only if the status was read and flagged new data. Failures are only logged, and every iteration ends with a 2 s sleep. The action alphabet includes `Publish`, a send into the `CO2` watch. `display_task` takes a receiver of that watch, but nothing in the firmware sends into it: the loop never performs `Publish`, and `Sense.SenseNeverPublishes` proves that.
- **The `CO2` watch**. Only its receiver count is modelled, capped at `CO2_CONSUMERS = 1`.
- **Presentation loop** (`display_task`). `Display.Screen` is a class with two fields: the RAM frame buffer and what the panel shows. A flush copies the buffer to the panel only when it succeeds. `Display.TextBuf` models the heapless `String<10>`, which is bounded and append-only. `Display.DisplayTask` runs the start-up sequence, takes the receiver, and then makes one pass per reading: `write!`, clear, flush, draw at (10, 32), flush. It returns the operation trace and ends in the screen state that replaying that trace gives (`Display.Replay`).
- **Decimal rendering** (`{}` of a `u16`). `Fmt.Digits` produces the digits. It is proved to round-trip through `Fmt.Value`, to have no leading zero, and to give at most five digits for a `u16`.

Points where the code behaves other than its structure suggests, modelled as the code is:
- `CO2` is a watch with a receiver in `display_task` and no sender: the sampling loop only logs its measurements (src/sense.rs:29-30).
- The presentation loop flushes twice per reading, once after clearing and once after drawing (src/display.rs:62 and src/display.rs:67).
- The text buffer is never cleared between readings (see Findings).
- The display's error messages are copied from the sensor code: `"Failed to init ens160"` and `"Faild to spawn sense task!"`. They are kept verbatim.

The model assumes one behaviour of heapless `write!` explicitly. It appends in two chunks: first the label `"CO2: "`, then the digits. Each chunk is appended whole if it fits, or not at all. The write stops at the first chunk that does not fit, and `.ok()` discards the error (`Display.TextBuf.PushStr`, `Display.Co2Write`).

## Model

| member | source | states |
|---|---|---|
| `Sense.InitEns` | src/sense.rs:47-59 | The trace starts by building the primary handle and initialising it, with the given primary outcome. It stops there iff that outcome is `Ok(true)`; otherwise it continues with release at primary, then build and initialise at secondary with the given secondary outcome. The result is a handle iff some `initialize()` returned `Ok(true)`. The handle's address is that of the last call, and it is built over the caller's endpoint. Otherwise the result is `Err("Faild to init ens160")` and the last call released the secondary handle. At most one `initialize()` is made per address, primary before secondary. |
| `Sense.InitEnsPrimaryWins` | src/sense.rs:48-50 | A primary `Ok(true)` returns the primary handle. No call touches the secondary address. |
| `Sense.InitEnsFallsBack` | src/sense.rs:51-54 | A primary `Err` or `Ok(false)` is followed by release of the primary handle, then construction and initialisation at the secondary address over the same endpoint. |
| `Sense.InitEnsSecondaryWins` | src/sense.rs:54-55 | A primary failure followed by a secondary `Ok(true)` returns the secondary-address handle. |
| `Sense.InitEnsBothFail` | src/sense.rs:57-58 | Both failing returns `Err("Faild to init ens160")`. The full call sequence ends by releasing the secondary handle. |
| `Sense.InitEnsInitializeCount` | src/sense.rs:49-54 | `initialize()` is called once or twice. It is called twice exactly when the primary attempt failed. |
| `Sense.RunTerminalStable` | src/sense.rs:47-59 | In the reference state machine, once `Done` or `Failed` is reached, any further outcomes leave the state unchanged. |
| `Sense.InitEnsFollowsMachine` | src/sense.rs:47-59 | Two outcomes always finish the reference state machine. `InitEns` succeeds iff the machine reaches `Done`, and then with the machine's handle. |
| `Sense.StartSense` | src/sense.rs:42-45 | A spawn is attempted iff discovery returned a handle, and then with that handle. The start succeeds iff discovery succeeded and the executor admitted the task. Otherwise the discovery error passes through unchanged, or a rejected spawn becomes `"Faild to spawn sense task!"`. |
| `Sense.StartSenseNoSensor` | src/sense.rs:42-44 | With no sensor on either address, `start_sense` returns the discovery error and never spawns the sampling task. |
| `Sense.CycleActions` | src/sense.rs:27-38 | One iteration starts with `get_status()` and ends with a 2 s sleep. It makes no other status call and no other sleep. `get_measurements()` is called iff the status was `Ok` with new data ready. Nothing is published. |
| `Sense.SenseTask` | src/sense.rs:24-40 | The loop's action trace for any number of iterations equals the iterations' actions in order (`SenseTrace`). |
| `Sense.SenseTraceCycles` | src/sense.rs:26-39 | Over n iterations there are exactly n status reads and n sleeps, whatever the outcomes. The loop neither exits nor retries within an iteration. |
| `Sense.SenseTraceMeasurements` | src/sense.rs:27-29 | The number of `get_measurements()` calls equals the number of iterations whose status was read with new data ready. |
| `Sense.SenseNeverPublishes` | src/sense.rs:29-33 | No action of the loop sends a reading into the `CO2` watch. |
| `Sense.Co2Watch.constructor` | src/sense.rs:16-17 | A new watch has the given receiver capacity and has handed out no receivers. |
| `Sense.Co2Watch.DynReceiver` | src/sense.rs:19-20 | It returns a receiver iff fewer than `capacity` have been handed out, and counts it. Otherwise it returns none and changes nothing. |
| `Sense.GetReceiver` | src/sense.rs:19-21 | `get_receiver` yields a receiver exactly while a slot is free. The watch never hands out more receivers than its capacity. |
| `Sense.OnlyOneReceiver` | src/sense.rs:16-21 | With `CO2_CONSUMERS = 1`, the first call of `get_receiver` gets the receiver and the second gets none. |
| `Fmt.Digits` | src/display.rs:58 | `{}` of a number gives at least one char, and all of them are decimal digits. |
| `Fmt.ValueOfDigits` | src/display.rs:58 | Reading the decimal rendering of a number back gives that number. |
| `Fmt.DigitsNoLeadingZero` | src/display.rs:58 | The rendering starts with '0' only for zero. |
| `Fmt.DigitsLength` | src/display.rs:58 | A number below 10^k renders to at most k digits. |
| `Fmt.U16DigitsLength` | src/display.rs:58 | A `u16` renders to between one and five digits. |
| `Fmt.DigitsInjective` | src/display.rs:58 | Different readings render to different digit strings. |
| `Display.InitDisplay` | src/display.rs:82-100 | The display is returned iff `init()` succeeded, and it is built over the caller's endpoint. Otherwise the result is `Err("Failed to init ens160")`. |
| `Display.StartDisplay` | src/display.rs:72-80 | A spawn is attempted iff `init_display` succeeded, and then with that display. The start succeeds iff init succeeded and the executor admitted the task. Otherwise it returns the init error, or `"Faild to spawn sense task!"` if the spawn was rejected. |
| `Display.TextBuf.constructor` | src/display.rs:53 | `String::new()` with capacity 10 is empty. |
| `Display.TextBuf.PushStr` | src/display.rs:58 | A chunk is appended whole iff it fits in the capacity. Otherwise the text is unchanged and the capacity is never exceeded. |
| `Display.Co2Write` | src/display.rs:58 | `write!(txt, "CO2: {}", v)` only appends and never exceeds the capacity. It appends chunk by chunk: nothing, the label `"CO2: "` alone, or the label followed by all the digits of `v`. |
| `Display.Co2WriteFromEmpty` | src/display.rs:53-58 | Writing into the empty `String<10>` always fits. The text is `"CO2: "` followed by the reading's digits, at most 10 chars. |
| `Display.Co2WriteStuck` | src/display.rs:58 | Once the text is longer than 5 chars, a further `write!` leaves it unchanged. |
| `Display.WriteCo2` | src/display.rs:58 | The buffer's new text is `Co2Write` of the old text. The discarded result is `Ok` iff the whole label and all the digits were appended. |
| `Display.TxtAfter` | src/display.rs:53-58 | After any sequence of readings, `txt` holds at most 10 chars. |
| `Display.TxtAfterGrows` | src/display.rs:53-58 | `txt` is never cleared: its contents after k readings extend its contents after any j <= k readings. |
| `Display.TxtAfterFrozen` | src/display.rs:53-58 | As written, after one or more readings `txt` is `"CO2: "` followed by the FIRST reading's digits. |
| `Display.StaleReading` | src/display.rs:53-58 | After readings 412 and then 415 the text is still `"CO2: 412"`, not the text for 415. |
| `Display.ShownTextCleared` | src/display.rs:53-58 | The text with the buffer cleared before each `write!` (the intended behaviour) never exceeds 10 chars. |
| `Display.ClearedShowsLatest` | src/display.rs:53-58 | With the buffer cleared, the text is `"CO2: "` followed by the latest reading's digits. That reading can be read back from the text. |
| `Display.Screen.constructor` | src/display.rs:92-94 | A display object over the given handle starts with an empty frame buffer. |
| `Display.Screen.Draw` | src/display.rs:64-66 | Drawing adds to the frame buffer only. The panel is unchanged until a flush. |
| `Display.Screen.ClearBuffer` | src/display.rs:61 | `clear_buffer()` empties the frame buffer and leaves the panel unchanged. |
| `Display.Screen.Flush` | src/display.rs:67 | A successful `flush()` shows the frame buffer on the panel. A failed one leaves the panel unchanged; either way the buffer is kept. |
| `Display.Startup` | src/display.rs:33-52 | Draw the splash, flush, wait 2 s, clear, flush, and only then take the receiver. The screen ends in the replayed state, and one receiver slot is used. |
| `Display.ShowReading` | src/display.rs:56-67 | One pass: `txt` receives the `write!`, then clear, flush, draw `txt` at (10, 32), flush. The buffer ends holding the text. The panel shows the text if the second flush succeeded, a blank screen if only the first did, and otherwise what it showed before. |
| `Display.DisplayTask` | src/display.rs:25-70 | The whole trace is the start-up operations followed by one pass per reading, flush errors ignored. The screen ends in the state that replaying the trace gives. The receiver is taken exactly once. |
| `Display.LoopFlushesTwicePerReading` | src/display.rs:60-67 | The loop makes exactly two flushes per reading, whatever they return. |
| `Display.LoopOpsDrawFrozenText` | src/display.rs:53-66 | The loop only awaits readings, clears, flushes and draws text at (10, 32). Every text it draws is the first reading's. |
| `Display.StartupPrecedesReadings` | src/display.rs:37-56 | The first five operations are splash, flush, 2 s wait, clear, flush. The sixth takes the receiver, and it is taken nowhere else. No reading is awaited and no text is drawn before it. |
| `Display.PanelAfterPass` | src/display.rs:60-67 | After a pass the buffer holds the current `txt`. The panel shows it if the second flush succeeded, a blank screen if only the first did, and otherwise what it showed before. |
| `Display.PanelFrozenOnFirstReading` | src/display.rs:53-67 | As written, whenever the last flush succeeds the panel shows `"CO2: "` followed by the first reading, however many readings followed. |
| `Display.FirstReading412` | src/display.rs:56-67 | For a first reading of 412 the pass is: await 412, clear, flush, draw `"CO2: 412"` at (10, 32), flush. |

## Left out

- src/main.rs is not part of this model. It covers clock, timer and interrupt bring-up, pin assignment, I2C construction, `StaticCell` set-up, the logger, `welcome_task` and the panic handler. None of it is decision logic.
- Bus arbitration: the embassy `Mutex` and the `I2cDevice` sharing are library concurrency code. An endpoint is only an identity that a driver is built on and released from.
- The `CO2` watch's value slot, coalescing and wake-ups belong to the foreign channel implementation. Only the receiver count is modelled. Nothing in the firmware ever sends into the watch, so as written `rx.changed()` never returns. `Display.DisplayTask` describes what the loop does with the readings it is given.
- Async suspension and real durations: sleeps and the 2 s splash hold are trace events (`Sleep(2)`, `Wait(2)`), not time.
- The ENS160 register protocol, the SSD1306 driver, embedded-graphics, fonts and the splash bytes are foreign drivers. Whether a call succeeds is a parameter. Drawing is recorded as what was drawn where, not as pixels.
- Display.Screen.Flush: assumes that a successful `flush()` copies the whole frame buffer to the panel and a failed one changes nothing. The driver actually sends only the changed region, and a failed transfer can leave a partly written frame. `Display.ShowReading`, `Display.PanelAfterPass` and `Display.PanelFrozenOnFirstReading` rest on this assumption.
- Display.TextBuf: counts characters where heapless `String<10>` counts UTF-8 bytes. The two agree here because everything written into it is ASCII.
- `.unwrap()` panics. `Display.Startup` and `Display.DisplayTask` require a free receiver slot (`get_receiver().unwrap()`). Drawing into the frame buffer is taken to succeed (`draw(..).unwrap()`).
- Logging: the sampling loop's log lines are actions in its trace, but the display loop's `error!("co2: {}")` line is not modelled. The measurements keep only their CO2 value, and their debug formatting is not modelled.
- The unbounded `loop`s in `sense_task` and `display_task` are modelled over finite prefixes: any number of iterations, given as a sequence of per-iteration outcomes.
- The `Delay` that each ENS160 handle carries is not modelled.

## Findings

| source | as written | input that shows it | evidently intended | confidence | as-written member | corrected member |
|---|---|---|---|---|---|---|
| src/display.rs:53-58 | `txt: String<10>` is declared once before the loop and never cleared. `write!(&mut txt, "CO2: {}", co2).ok()` appends to it. | Readings 412 then 415. The first pass leaves `"CO2: 412"` (8 chars). The second `write!` cannot fit the 5-char label, the error is discarded, and the display keeps showing `"CO2: 412"`. | Clear `txt` before each `write!` so that the text shows the latest reading. | not executed | `Display.StaleReading` | `Display.ClearedShowsLatest` |

`Display.DisplayTask` models the loop as written. `Display.TxtAfterFrozen` and `Display.PanelFrozenOnFirstReading` give the general form of this finding. `Display.ShownTextCleared` is the corrected text.
