# Verified models of the K530 keyboard firmware

The firmware turns switch closures into host reports and talks to a Bluetooth module
over SPI. This project models the parts of it that keep state, and proves what they keep:

- **Scan and tap/hold.** `keyboard_task` finds one changed key per call. The tap/hold engine
  delays, reorders, annotates and replays key events through one tapping key and a ring of
  eight slots, and `process_record` turns what it releases into layers, codes and modifiers.
  The source-layer cache remembers, bit-sliced, on which layer each key was pressed.
- **Bluetooth.** The byte-in, byte-out SPI automaton: synchronisation on `0xA2`, framing by a
  running checksum, and the frames sent to the module.
- **VIA storage.** EEPROM initialisation by single-byte writes, layout options, the dynamic
  keymap and the null-separated macro language.
- **Deferred execution, dynamic macros, CRC-8 and UF2.**

Each file is one module. A module that models changing state holds a class (or a method with
its loops) written the way the source is, proved against functions on values; the theorems are
lemmas about those functions over whole runs. Key files, in reading order:

| files | about |
|---|---|
| `KeyEvents`, `Actions`, `SourceLayers`, `ActionHosts` | events, actions, the layer cache, the host state |
| `TappingSpec`, `Tapping` | the engine as functions, and as the imperative program |
| `TappingFifo`, `TappingDrain` | nothing lost, order per key, and everything delivered |
| `TappingAgreement`, `TappingTimes` | taps and holds match, and how the 16-bit timer can help or hinder that |
| `TappingDispatches`, `TappingEffects` | overflow, what is on at the host and what each key resolves to, exactly, in all runs |
| `TappingEndToEnd`, `TappingDecisions`, `TappingTaps` | nothing sticks, what is decided when, what tap counts mean |
| `ScanSource`, `Clock`, `Latency`, `Keyboard` | the scan, what true times add, how long an event can be made to wait, and scan and engine together |
| `TappingExamples`, `TimingExamples` | five runs that show why the conditions are needed |
| `Bluetooth` | the automaton and its frames |
| `Eeprom`, `EepromCrash`, `Macros` | writes, crash consistency, macros |
| `DeferredExec`, `DeferredRuns` | the scheduler, and what its callers can rely on |
| `DynamicMacro`, `LinearChecksum`, `Crc`, `Uf2` | the smaller machines |
| `Words`, `Wrappers` | widths of machine words, optional values and results |

## What turned out not to hold

- **Order.** A new event can overtake older events of its own key: a timeout inside the drain
  loop leaves events in the ring with no key pending (`TappingExamples.OvertakingHappens`). The
  exact condition on an arriving event is `TappingFifo.Admissible`: something is pending, or
  nothing of its key waits, or it ends the last tap's term. `TappingFifo.OrderKeptExactly` proves
  it both ways. Settled states, where the ring is empty or a press is pending, always satisfy it.
- **Tap/hold agreement.** It can fail although every event is admissible. When the tapping key
  is pressed again after an interrupted tap, the engine starts a new pending press without
  scanning the ring (quantum/action_tapping.c:391-393), so a later release can settle that press
  while an earlier one still waits (`TappingExamples.TapReleasedAsHold`). And when a press taken
  from the ring is settled by a scan of what waits behind it, a timer that has gone round can make
  the scan take a later release for the next one (`TimingExamples.ClockGoesRound`). These are the
  only two ways in which a tap mark in the ring gets out of step with the dispatches: an arrival
  keeps the marks in step if and only if the event is in turn
  (`TappingAgreement.ArriveSoundExactly`), a pass of the drain loop if and only if its scan, if it
  makes one, hits (`TappingAgreement.DrainStepSoundExactly`), and so a whole run at every step if and
  only if all of both hold (`TappingAgreement.SoundExactly`). Then taps and holds agree
  (`TappingAgreement.RunAgrees`). For the scans it is enough that the timer has not gone round
  since the oldest event that the arriving event's key still has to dispatch
  (`TappingTimes.TimelyRunIsOrderly`), and for that a scan that keeps its pace
  (`Latency.PacedRunsAgree`).
- **Latency.** No bound holds for all runs, however fast the scan: while a release waits with no
  press pending, each new press of a tap key is settled at once against that older event and nothing
  leaves the ring, so the release waits as long as new tap keys are pressed (`TimingExamples.Starves`).
  A press is hurried if it comes while events wait and no press is pending; each one costs at most
  three calls. With at most `most` of them in one round of the timer, and scans at least every
  `gap` ms, everything is dispatched within `term + (22 + 3 * most) * gap` ms, however much typing
  goes on, if the timer's round has room for that, a term and a gap more (`Latency.DeliveredInTime`).
- **Pending presses.** Within the term a press can also be settled by the release of an unrelated
  layer key: it takes a layer away, which lets the retained release of a modifier go, and the
  pending key's own waiting release comes to the front (`TimingExamples.SettledByAStranger`).
  `TappingDecisions.PendingVerdict` has the exact condition.
- **Macro sending.** A buffer that ends in a null but holds exactly `id` nulls is read past its
  end (quantum/dynamic_keymap.c:208-228), as macro 1 of a buffer with one null at its end is
  (`Macros.SendPastTheEnd`); `Macros.MacroSend` states exactly when.
- **Deferred calls.** The signed 32-bit comparison calls an entry that is 2^31 or more ahead, and
  skips one that is more than 2^31 behind: `DeferredExec.FiresExactly` and, over whole runs,
  `DeferredExec.NeverEarlyExactly`. `EarlyCallHappens` and `EarlyAgainHappens` show early calls, for
  a delay given to `defer_exec` and for one returned by a callback; `DueEntrySkipped` shows a due
  entry being skipped.
- **Status frames.** A frame whose earlier bytes happen to equal the running sum is cut short, as
  any that starts with A7 A7 is (`Bluetooth.FrameCutShort`); `Bluetooth.DeliveredWhole` says exactly
  which frames arrive whole.
- **UF2 gaps.** `convert_from_uf2` fills gaps between blocks with integers, so joining the
  pieces raises an exception: only files without gaps can be read (`Uf2.DecodesExactly`), and a gap
  of one word is enough (`Uf2.GapRaises`).
- **Comments.** Comments in Наработки/bluetooth.c speak of 21-byte frames, but the code sends 39
  bytes; its loopback command is never entered (`Bluetooth.NeverLoopback`). A comment in
  quantum/dynamic_macro.h says recording stops when the two macros meet; the code goes on and
  drops what does not fit. The model follows the code.

## Model

| member | source | states |
|---|---|---|
| Tapping.TappingEngine.ActionExec | quantum/action.c:70-131 | the imperative engine, given one event or tick, reaches exactly the specified state, dispatches included |
| Tapping.TappingEngine.ActionTappingProcess | quantum/action_tapping.c:71-106 | the drain loop over the ring buffer ends, and equals the recursive drain of the sequence of waiting records |
| Tapping.TappingEngine.Arrive | quantum/action_tapping.c:72-86 | a record not taken is enqueued; a full ring clears every state instead |
| Tapping.TappingEngine.ProcessTapping | quantum/action_tapping.c:114-438 | verdict, dispatches, tapping key and written-back record of every branch |
| Tapping.TappingEngine.WaitingBufferEnq | quantum/action_tapping.c:444-461 | appends to the circular buffer, or refuses exactly when seven records wait |
| Tapping.TappingEngine.WaitingBufferTyped | quantum/action_tapping.c:475-482 | true exactly when the ring holds the opposite event of the same key |
| Tapping.TappingEngine.WaitingBufferScanTap | quantum/action_tapping.c:499-518 | settles a fresh press by its first waiting release within the term, and marks that release |
| TappingFifo.ProcessTappingTakes | quantum/action_tapping.c:114-438 | one call takes its record exactly when it says so, and moves no other event, for every state, time and keymap |
| TappingFifo.DrainConserves | quantum/action_tapping.c:92-102 | draining keeps each key's sequence of dispatched, pending and waiting events |
| TappingFifo.ArriveAccounts | quantum/action_tapping.c:71-86 | an arriving event goes to the end of its key's sequence if and only if it is admissible; other keys never notice |
| TappingFifo.RunKeepsOrder | quantum/action_tapping.c:71-106 | in every lawful, admissible run without overflow, each key's dispatched, pending and waiting events are the submitted ones, in order |
| TappingFifo.OrderKeptExactly | quantum/action_tapping.c:71-106 | order is kept after every event of a run if and only if every event was admissible |
| TappingFifo.SettledIsAdmissible | quantum/action_tapping.c:92-102 | an event that arrives while the ring is empty or a press is pending is admissible |
| TappingDrain.TickProgress | quantum/action_tapping.c:311-320 | a due tick strictly reduces the waiting work unless there is none, and a tick never adds any |
| TappingDrain.TicksDrain | quantum/action_tapping.c:92-102 | from any state at all, a stream of ticks with as many due ones as there is work leaves the engine idle, however many early ones lie between them |
| TappingDrain.EverythingIsDelivered | quantum/action_tapping.c:71-106 | after an admissible run without overflow, any stream of ticks with 23 due ones dispatches every submitted event of every key once and in order |
| TappingDrain.RingBounded | quantum/action_tapping.c:444-461 | no run ever holds more than seven waiting records |
| TappingAgreement.ScanHitsNext | quantum/action_tapping.c:499-518 | the release at which the scan stops is the key's very next event if and only if that event would settle the press |
| TappingAgreement.ScanExactly | quantum/action_tapping.c:499-518 | the scan keeps the tap marks in step if and only if the key's next event settles the press whenever any of its waiting events does |
| TappingAgreement.ArriveSoundExactly | quantum/action_tapping.c:71-86 | an arrival keeps the invariant that ties tap marks in the ring to what was dispatched if and only if the event is admissible and, if it settles the pending press as a tap, that key's next event |
| TappingAgreement.DrainStepSoundExactly | quantum/action_tapping.c:92-102 | one pass of the drain loop keeps it if and only if the pass does not scan or its scan hits |
| TappingAgreement.DrainSoundExactly | quantum/action_tapping.c:92-102 | the drain loop keeps it at every pass if and only if every scan of it hits |
| TappingAgreement.ActionExecSound | quantum/action_tapping.c:71-106 | a whole call keeps it for an orderly event, one in turn behind which every scan hits, and the log keeps agreeing |
| TappingAgreement.SoundExactly | quantum/action_tapping.c:71-106 | over every lawful run without overflow, the invariant holds after each arrival and each pass of each drain loop if and only if every event was orderly |
| TappingAgreement.RunAgrees | quantum/action_tapping.c:114-438 | in every lawful, orderly run without overflow, a release dispatched for a key that is down is a tap's release exactly when its press was a tap |
| TappingTimes.InTimeHits | quantum/action_tapping.c:499-518 | if each key's events in flight are in circular order of 16-bit time, the scan behind the ring's oldest entry hits |
| TappingTimes.TimelyRunIsOrderly | quantum/action_tapping.c:71-106 | a run is orderly if each of its events is in turn and in circular order with what its key still has to dispatch |
| TappingDispatches.OverflowsExactly | quantum/action_tapping.c:71-86 | a call overflows if and only if a real event that is not taken finds seven records waiting; then nothing is pending or waiting and no code or modifier is on any more, while layers and log stay |
| TappingEffects.RunLeavesOn | quantum/action.c:81-84 | at every moment of every run at all, overflow or not, a layer, code, real or weak modifier is on if and only if a press turned it on and nothing has turned it off since: a release with the same effect; an overflow, but for layers; and for a weak modifier any change of layers and any press that has come since |
| TappingEffects.PressForgetsWeak | quantum/action.c:81-84 | from any state, the weak modifiers that are on after a press has come are exactly those that a press dispatched in that very call turned on and nothing turned off again |
| TappingEffects.RunResolvesRight | quantum/action_layer.c:229-273 | in every run at all, each dispatched press does what its key stands for on the topmost layer that earlier dispatches have left on, and each dispatched release does what the last press of its key did |
| TappingEndToEnd.RunTracks | quantum/action.c:203-243 | in every run without overflow the layers, cache, keys and real modifiers are what the logged dispatches alone produce, and the weak modifiers at most that, because a press clears them |
| TappingEndToEnd.RunHoldsOnlyPressed | quantum/action.c:538-633 | at every moment of a lawful, orderly run without overflow each layer, code and modifier that is on is held by a key that is down, and each release undoes its own press's action |
| TappingEndToEnd.NothingSticks | quantum/action_layer.c:229-247 | after a lawful, orderly run without overflow, with all keys up and nothing waiting, no layer, code or modifier is on, however layers changed in between |
| TappingEndToEnd.ReleasedKeysFallSilent | quantum/action_tapping.c:71-106 | after a run without overflow that releases all keys, any stream of ticks with 23 due ones delivers everything in order and leaves the host quiet, if run and ticks are orderly |
| TappingEndToEnd.TimelyKeysFallSilent | quantum/action_tapping.c:71-106 | the same with nothing asked of the ticks, if every event of the run was timely |
| TappingDecisions.PendingVerdict | quantum/action_tapping.c:135-271 | over a whole call that does not overflow, a pending press is dispatched as a tap by its own release within the term and as a hold by the first event or tick after it; any other event leaves it pending if and only if the drain loop behind it is steady, and else settles it |
| TappingDecisions.DrainVerdict | quantum/action_tapping.c:92-102 | the drain loop settles a pending press if and only if it is not steady |
| TappingDecisions.RestingVerdict | quantum/action_tapping.c:224-271 | from a resting state only a release that is let go while others wait can settle it besides those two |
| TappingDecisions.RunRests | quantum/action_tapping.c:92-102 | in every state that a run reaches a pending press rests |
| TappingDecisions.BurstCounts | quantum/action_tapping.c:371-390 | the n-th quick tap is dispatched with count min(n, 15), press and release alike, for bursts of any length with any number of ticks in between |
| TappingTaps.RunCountsBursts | quantum/action_tapping.c:371-390 | conversely, in every run a count n > 1 is dispatched only within the term after a tap of the same key with count n - 1 (or 15), released within its term, with nothing pressed in between |
| TappingTaps.FreeRelease | quantum/action_tapping.c:272-370 | with nothing waiting or pending, a release goes out at once, with the tap data of its press if its key was tapped, and only within the term can a burst go on from it |
| TappingTaps.FreeBurst | quantum/action_tapping.c:371-390 | a press that goes on with a burst goes out at once with the next count, up to 15 |
| TappingTaps.FreePress | quantum/action_tapping.c:395-438 | a press of a key that is no tap key goes out at once and interrupts a burst |
| TappingTaps.FreeTap | quantum/action_tapping.c:272-301 | a press of a tap key is held back; if the second or a later tap of a burst is still down, its release goes out first, stamped with the time of the new press |
| TappingTaps.FreeTick | quantum/action_tapping.c:413-422 | a tick dispatches nothing and ends a burst whose term is over |
| TappingTaps.PendingArrival | quantum/action_tapping.c:224-271 | while a press is pending within its term, another key's event waits, unless it is the release of a key, no modifier, whose press is not waiting; a press that comes or is next in turn interrupts |
| TappingExamples.OvertakingHappens | quantum/action_tapping.c:311-320 | a lawful run without overflow in which an event overtakes one of its own key |
| TimingExamples.Starves | quantum/action_tapping.c:311-320 | a run that leaves a release waiting with no press pending goes on, for any n up to 30000, as a lawful, admissible run without overflow, with scans at least every 300 ms, in which that release still waits 2 * n ms after it came |
| TimingExamples.StarvingStarts | quantum/action_tapping.c:311-320 | the three events from which those runs go on do leave the release waiting |
| TimingExamples.ClockGoesRound | quantum/action_tapping.c:499-518 | an admissible run in which the scan, fooled by a timer that has gone round, makes a tap's release the end of a hold |
| TimingExamples.SettledByAStranger | quantum/action_tapping.c:230-251 | a lawful run after which an unrelated release within the term settles the pending press |
| TappingExamples.TapReleasedAsHold | quantum/action_tapping.c:391-393 | an admissible run in which a tap's release is dispatched as the end of a hold |
| ActionHosts.ActionHost.LayerSwitchGetLayer | quantum/action_layer.c:253-273 | the loop finds the specified layer |
| ActionHosts.ActionHost.StoreOrGetAction | quantum/action_layer.c:229-247 | a press stores its layer in the cache, a release reads back the layer of its press |
| ActionHosts.ActionHost.ProcessAction | quantum/action.c:281-633 | new layers, keys and modifiers for plain, layer-tap and momentary actions |
| ActionHosts.ActionHost.ProcessRecord | quantum/action.c:221-243 | resolves the action through the cache, then performs it |
| ActionHosts.ActionHost.RegisterCode | quantum/action.c:797-887 | adds a key or a modifier of the keyboard report and changes nothing else in it |
| Actions.TopLayerIsTop | quantum/action_layer.c:253-273 | the layer found is the topmost active one that is not transparent, or 0 if there is none |
| Actions.PressEffects | quantum/action.c:281-633 | a press turns on only what its action and tap state stand for |
| Actions.PressTurnsOn | quantum/action.c:281-633 | a press turns on all of its effects and keeps every other, weak modifiers aside |
| Actions.ReleaseKeeps | quantum/action.c:281-633 | a release turns off nothing but its own effects and weak modifiers |
| Actions.ReleaseEffects | quantum/action.c:281-633 | a release turns on nothing, and turns off all that the matching press turned on |
| SourceLayers.MergeSetsBit | quantum/action_layer.c:199-201 | the XOR update sets exactly one bit of a byte |
| SourceLayers.ValueOfBits | quantum/action_layer.c:214-216 | a layer that fits is rebuilt from its bits |
| SourceLayers.SourceLayerCache.Update | quantum/action_layer.c:194-202 | the bit-sliced array changes like a map: one key gets the layer, no other key changes |
| SourceLayers.SourceLayerCache.Read | quantum/action_layer.c:208-219 | reads the layer last stored for the key, 0 if none was |
| ScanSource.MatrixScanner.KeyboardTask | quantum/keyboard.c:388-427 | reports the first difference in row-major order and remembers it, or sends a tick if there is none |
| ScanSource.OneFewer | quantum/keyboard.c:388-427 | one call lowers the number of differences by exactly one, or finds none |
| ScanSource.SentAlternates | quantum/keyboard.c:401-410 | over every sequence of matrices each key's events alternate, and the remembered matrix is the state they describe |
| ScanSource.SentIsLawful | quantum/keyboard.c:388-427 | so the tap/hold engine is always fed a lawful run |
| ScanSource.SentIsStamped | quantum/keyboard.c:401-425 | each call sends one event, stamped with its own time made odd, that tells the key's state in the matrix |
| ScanSource.ConstantMatrixSettles | quantum/keyboard.c:388-427 | on a constant matrix the differences are reported one per call, and then only ticks are sent |
| Keyboard.EmptyMatrixIsQuiet | quantum/keyboard.c:377-427 | once the scan remembers no pressed key and the engine is idle, after orderly events without overflow, everything scanned was dispatched in order and the host is quiet |
| Keyboard.EmptyMatrixFallsSilent | quantum/keyboard.c:377-427 | and after timely events without overflow, scans that find no key pressed for 23 * (term + 2 * gap + 2) ms make the engine idle, if they come at least every gap ms |
| Clock.TimeDrains | quantum/action_tapping.c:311-320 | from any state, ticks stamped by the 16-bit timer use up all work in a time bounded by the work, the term and the longest pause between scans |
| Clock.SilentInTime | quantum/keyboard.c:421-427 | after a lawful, timely run without overflow has released all keys, that time leaves everything delivered and the host quiet |
| Clock.OneRoundIsCircular | quantum/action_tapping.c:499-518 | events within one round of the timer are in circular order |
| Latency.CallTracked | quantum/action_tapping.c:71-106 | one call keeps every event in flight within its budget: at most 22 calls since its term was over, and three more for each hurried press |
| Latency.DeliveredInTime | quantum/action_tapping.c:71-106 | in every lawful, admissible run without overflow whose scans come at least every gap ms, with at most `most` hurried presses in a round of the timer, everything submitted more than term + (22 + 3 * most) * gap ms before the last call has been dispatched in order |
| Latency.PacedRunsAgree | quantum/action_tapping.c:114-438 | such a run, with every event in turn, is timely and orderly, and its taps and holds agree |
| Latency.PacedKeysFallSilent | quantum/keyboard.c:388-427 | and once it has released all keys, 23 * (term + 2 * gap + 2) ms of scans without a change leave everything delivered and the host quiet |
| Bluetooth.Automaton.Step | Наработки/bluetooth.c:817-869 | response, completion, captured frame and new state for every byte |
| Bluetooth.SelfSynchronising | Наработки/bluetooth.c:827-834 | from any two states, the same bytes from 0xA2 on get the same responses and captured frames for ever |
| Bluetooth.NeverLoopback | Наработки/bluetooth.c:857-867 | no run from power-up reaches the loopback command, and the receive buffer never exceeds 64 bytes |
| Bluetooth.Collecting | Наработки/bluetooth.c:836-855 | until a byte ends it, a status frame is collected byte for byte with its running sum |
| Bluetooth.CompletesExactly | Наработки/bluetooth.c:836-855 | a frame completes exactly at the first later byte equal to the low 8 bits of the sum before it, and captures those bytes up to 64 |
| Bluetooth.DeliveredWhole | Наработки/bluetooth.c:836-855 | a sealed frame of at most 64 bytes arrives whole if and only if no earlier byte equals the running sum |
| Bluetooth.FrameCutShort | Наработки/bluetooth.c:845-852 | the sealed frame A7 A7 00 4E completes at its second byte and is never delivered whole |
| Bluetooth.PollReplies | Наработки/bluetooth.c:857-863 | the response to the n-th byte of a poll is frame byte n mod 256, or 0 past the frame |
| Bluetooth.PollReadsFrame | Наработки/bluetooth.c:857-863 | a 39-byte poll returns the loaded frame, checksum included |
| Bluetooth.FramesExactly | Наработки/bluetooth.c:827-855 | on any stream from power-up, however many frames and polls it holds, a byte completes a frame if and only if one is open there and the byte, no poll, equals the low 8 bits of its sum; the frame is delivered from its 0xA7 on, up to 64 bytes |
| Bluetooth.RepliesExactly | Наработки/bluetooth.c:827-867 | on any stream from power-up the reply is 0 before the first poll, and then byte k mod 256 of the frame loaded at that moment, or 0 past its 39 bytes, k bytes after the last poll |
| Bluetooth.SumAdds | Наработки/bluetooth.c:976-982 | the sum of a byte is the byte, and the sum of two parts together is the sum of theirs |
| Bluetooth.Checksum | Наработки/bluetooth.c:976-982 | the 8-bit sum of the given bytes |
| Bluetooth.BuildKeyboardFrame | Наработки/bluetooth.c:990-1026 | all 38 bytes of a 6-key frame, sealed by their 8-bit sum |
| Bluetooth.BuildControlFrame | Наработки/bluetooth.c:1040-1071 | all 38 bytes of a control frame, sealed; the host byte is the slot's number minus 1 if that is 1, 2 or 3, else 0 |
| Bluetooth.BuildHostSwitchFrame | Наработки/bluetooth.c:1120-1133 | all 38 bytes of a host-switch frame, sealed, with the same host byte |
| Bluetooth.LoadTxBuffer | Наработки/bluetooth.c:580-589 | copies at most 39 bytes and leaves the rest of the buffer |
| Eeprom.EepromDevice.EeconfigInitVia | quantum/via.c:107-118 | the exact sequence of single-byte writes: invalidate, reset everything, validate last |
| Eeprom.EepromDevice.ViaInit | quantum/via.c:95-105 | writes nothing to a valid EEPROM and initialises any other |
| Eeprom.EepromDevice.ViaEepromIsValid | quantum/via.c:64-71 | true exactly when the decimal digits of the three magic bytes are year, month and day of the build |
| Eeprom.ValidIsDated | quantum/via.c:64-71 | the validity that the crash theorems speak of is just that |
| Eeprom.OneDatePerImage | quantum/via.c:64-71 | two builds accept the same image only if these six digits of their dates agree |
| Eeprom.AddressMap | quantum/dynamic_keymap.c:30-89 | three magic bytes, the options, custom bytes, two bytes for each key layer by layer and row by row, and the macros up to the last address |
| Eeprom.EepromDevice.ViaSetLayoutOptions | quantum/via.c:134-142 | writes the least significant byte first, from the highest address down |
| Eeprom.EepromDevice.ViaGetLayoutOptions | quantum/via.c:122-132 | reads the bytes back, most significant first |
| Eeprom.EepromDevice.SetKeycode | quantum/dynamic_keymap.c:99-104 | two writes, high byte first, at the address of that key, and no other byte changes |
| Eeprom.EepromDevice.GetKeycode | quantum/dynamic_keymap.c:91-97 | high and low byte are the two bytes at the key's address, which lie inside the memory |
| Eeprom.EepromDevice.DynamicKeymapReset | quantum/dynamic_keymap.c:106-117 | the writes of all keycodes, layer by layer, row by row |
| Eeprom.EepromDevice.MacroReset | quantum/dynamic_keymap.c:186-193 | zeroes the macro area byte by byte |
| Eeprom.KeymapContiguous | quantum/dynamic_keymap.c:86-89 | the address map lays the whole keymap out without gap or overlap |
| Eeprom.KeymapHolds | quantum/dynamic_keymap.c:106-117 | the reset writes each key's flash keycode at that key's own address |
| EepromCrash.LayoutRoundTrip | quantum/via.c:122-142 | layout options read back as stored, modulo the bytes reserved for them |
| EepromCrash.LayoutBytes | quantum/via.c:134-142 | layout options are stored most significant byte first |
| EepromCrash.KeycodeRoundTrip | quantum/dynamic_keymap.c:91-104 | a keycode reads back as stored, and no other key's keycode changes |
| EepromCrash.InitResets | quantum/via.c:107-118 | an uncut initialisation leaves default options, the flash keymap, zeroed macros and a valid magic, from whatever image it starts |
| EepromCrash.CutIsInvalid | quantum/via.c:107-118 | an initialisation cut after its first and before its last write is never valid |
| EepromCrash.HistoryIsConsistent | quantum/via.c:64-142 | over any history of boots, factory resets and stores of keycodes and layout options, each cut after any number of writes, a valid image is the untouched original or a fully reset one with just the stores since on top, and what VIA does not own is never changed |
| EepromCrash.BootsAreConsistent | quantum/via.c:64-118 | over boots and factory resets alone, each cut after any number of writes, the EEPROM is valid only if it is untouched or fully reset |
| EepromCrash.UncutBootRecovers | quantum/via.c:95-118 | after any such history the first boot that is not cut leaves a valid image as it is and resets any other in full |
| Macros.SendString | quantum/send_string.c:149-188 | performs exactly what the string spells: characters, key sequences and delays, with the pause after each |
| Macros.SpellRoundTrip | quantum/send_string.c:149-188 | what SS_TAP, SS_DOWN, SS_UP, SS_DELAY and letters spell is what the string does, pauses included, whatever follows its null; delays of any length, in decimal |
| Macros.UnknownIsSkipped | quantum/send_string.c:149-188 | a prefix before any other code does nothing, and both are skipped |
| Macros.DanglingCode | quantum/dynamic_keymap.c:225-249 | a key code that ends a macro without its key does nothing |
| Macros.MacroSend | quantum/dynamic_keymap.c:195-250 | performs exactly the actions of the id-th null-separated segment, and reads past the buffer exactly when it ends in a null and holds just id nulls |
| Macros.PlayMacro | quantum/dynamic_keymap.c:225-249 | the chunks sent to send_string add up to the segment's actions, and reading stays inside the buffer |
| Macros.EncodeRoundTrip | quantum/send_string.c:149-188 | an encoded macro is interpreted as the macro, and holds no null |
| Macros.StoredSegments | quantum/dynamic_keymap.c:195-250 | a list of macros encoded into the buffer ends in a null, and segment id interprets to macro id |
| Macros.StoreAndSend | quantum/dynamic_keymap.c:195-250 | encoding a list of macros and sending id plays macro id and reads only inside the buffer |
| Macros.SendPastTheEnd | quantum/dynamic_keymap.c:208-228 | a buffer whose only null ends it is read past its end when macro 1 is sent |
| DeferredExec.Scheduler.AllocateToken | quantum/deferred_exec.c:35-45 | the wrapping search ends at the first unused non-zero token and never fails |
| DeferredExec.Scheduler.DeferExec | quantum/deferred_exec.c:47-74 | the table after a registration, and the token returned |
| DeferredExec.Scheduler.ExtendDeferredExec | quantum/deferred_exec.c:76-94 | the table after an extension, and whether the token was found |
| DeferredExec.Scheduler.CancelDeferredExec | quantum/deferred_exec.c:96-117 | the table after a cancellation, and whether the token was found |
| DeferredExec.Scheduler.DeferredExecTask | quantum/deferred_exec.c:119-152 | the table and the calls after one pass, or nothing if it is throttled; what that means over runs is in the rows on calls |
| DeferredExec.SomeTokenUsable | quantum/deferred_exec.c:35-45 | pigeonhole: among two more tokens in a row than there are slots, one is unused and non-zero |
| DeferredExec.AllocationSucceeds | quantum/deferred_exec.c:35-45 | so the search finds one before it has gone round |
| DeferredRuns.RegisterFills | quantum/deferred_exec.c:47-74 | a registration fills the first free slot, due the delay from now, under a non-zero token that no entry had, and changes no other slot |
| DeferredRuns.NothingRegistered | quantum/deferred_exec.c:47-74 | it returns 0 and changes nothing if the delay is 0, there is no callback or no slot is free |
| DeferredRuns.ExtendRestarts | quantum/deferred_exec.c:76-94 | an extended entry starts over, due the delay from now under the same token and callback; no other slot changes |
| DeferredRuns.CancelFrees | quantum/deferred_exec.c:96-117 | a cancelled entry is live no more; no other slot changes |
| DeferredRuns.NothingFound | quantum/deferred_exec.c:76-117 | both fail and change nothing if no entry is live under the token, and extending also if the delay is 0 |
| DeferredRuns.ReplacedIsNeverCalled | quantum/deferred_exec.c:76-117 | over every run, no call is made for an entry after it has been cancelled or, under its old registration, extended |
| DeferredRuns.RepeatsOnlyIfAsked | quantum/deferred_exec.c:138-148 | over every run, a registration is called again only if the call before returned a delay, and one whose callback returned 0 is live no more |
| DeferredRuns.EveryCallWasAskedFor | quantum/deferred_exec.c:47-152 | over every run, each call goes back to a step that registered that callback or extended that entry, with the delay that leads to its first trigger time |
| DeferredExec.RunIsExact | quantum/deferred_exec.c:64-151 | over every run, whatever the delays: live tokens are non-zero and distinct, and each call's trigger time is the first one plus all delays asked for before, mod 2^32 |
| DeferredExec.RunIsTimely | quantum/deferred_exec.c:64-151 | over every run with delays below 2^31 no call is early |
| DeferredExec.FiresExactly | quantum/deferred_exec.c:131 | an entry is called if and only if it is due and at most 2^31 behind, or at least 2^31 ahead, modulo the round of the timer |
| DeferredExec.TaskCallsTheReady | quantum/deferred_exec.c:119-152 | a pass calls exactly those entries, each once, in table order, and a throttled one none |
| DeferredExec.TaskCallsTheDue | quantum/deferred_exec.c:119-152 | with short delays a pass calls exactly the due entries if and only if none is more than 2^31 behind, modulo the round |
| DeferredExec.NeverEarlyExactly | quantum/deferred_exec.c:119-152 | a run makes no early call if and only if no unthrottled pass finds a live entry that is still to come by half a round of the timer or more, modulo that round |
| DeferredExec.EarlyCallHappens | quantum/deferred_exec.c:64 | a run in which a delay of 2^31 is called at once |
| DeferredExec.EarlyAgainHappens | quantum/deferred_exec.c:141 | a run in which a delay returned by a callback is called far too early |
| DeferredExec.DueEntrySkipped | quantum/deferred_exec.c:131 | a run in which a due entry is skipped by a pass |
| DynamicMacro.DynamicMacroRecorder.ProcessRecord | quantum/dynamic_macro.h:154-260 | the pointer-based recorder in one array behaves as two separate event lists |
| DynamicMacro.EventFate | quantum/dynamic_macro.h:179-257 | in every state an event is passed on, and so typed, if and only if it does not control the recorder: no release of a start or play key, or while recording no stop or play key; which events play, start and end a recording |
| DynamicMacro.DynamicMacroRecorder.RecordKey | quantum/dynamic_macro.h:104-122 | stores the event unless it is a leading release or would reach the other macro, whose places keep their contents |
| DynamicMacro.DynamicMacroRecorder.RecordEnd | quantum/dynamic_macro.h:128-142 | the end moves back over exactly the trailing presses |
| DynamicMacro.DynamicMacroRecorder.Play | quantum/dynamic_macro.h:77-93 | replays the stored events in order, in either direction |
| DynamicMacro.KeepsWhatFits | quantum/dynamic_macro.h:104-122 | recording keeps the events in order, minus leading releases, as far as they fit |
| DynamicMacro.TrimmedExactly | quantum/dynamic_macro.h:128-142 | what is left is a prefix that does not end in a press, and only presses were cut |
| DynamicMacro.AlwaysFits | quantum/dynamic_macro.h:154-260 | in every run the two macros, and the one being recorded, never need more than the array |
| DynamicMacro.SessionRecords | quantum/dynamic_macro.h:154-260 | a whole session stores exactly the trimmed events in one macro, leaves the other alone, and playing gives exactly what is stored; every event of it is typed and plays nothing |
| Crc.Crc8 | quantum/crc.c:43-58 | the two nested loops compute the checksum function |
| Crc.CheckValue | quantum/crc.c:43-58 | the checksum of nothing is 0xFF, and that of BE EF is 0x92 |
| Crc.InnerLoopOneToOne | quantum/crc.c:50-55 | the inner loop is linear over XOR and one-to-one on bytes |
| LinearChecksum.FoldLinear | quantum/crc.c:43-58 | the XOR of two checksums is the checksum of the XORed messages from the XORed start values |
| LinearChecksum.CollidesExactly | quantum/crc.c:43-58 | two messages of one length share a checksum if and only if their difference, started from zero, has checksum zero |
| LinearChecksum.MissesTwoExactly | quantum/crc.c:43-58 | an error in two neighbouring bytes goes unseen exactly when the second undoes the first, shifted |
| Crc.DetectsByteError | quantum/crc.c:43-58 | every error within one byte of a message of any length changes the CRC |
| Crc.DetectsBurst | quantum/crc.c:43-58 | so does every error within 8 consecutive bits, across a byte boundary too |
| Crc.MissesThePolynomial | quantum/crc.c:51-52 | the bound is tight: the polynomial's own nine bits are never seen, in any message at any place |
| Uf2.Converter.ConvertToUf2 | util/uf2conv.py:108-129 | the bytes of all blocks, or an exception exactly when a header number is no 32-bit word |
| Uf2.Converter.ConvertFromUf2 | util/uf2conv.py:62-96 | the bytes read or the exception raised, and the start address remembered |
| Uf2.DecodesExactly | util/uf2conv.py:62-96 | a file is read if and only if every block is genuine and each flash block holds at most 476 bytes and starts where the one before ended; then the data come back in order |
| Uf2.GapRaises | util/uf2conv.py:91-96 | two genuine blocks one word apart raise an exception when the pieces are joined |
| Uf2.BlockFields | util/uf2conv.py:119-121 | every header word of a written block reads back as written |
| Uf2.WrittenBlock | util/uf2conv.py:108-129 | every byte of every written block: magic words, family flag, address, size, number, count and family, least significant byte first, its piece of the content, zeros and the end magic |
| Uf2.HeaderRead | util/uf2conv.py:70-84 | in terms of bytes: a block is genuine by its two magic words, for flash if bit 0 of its flags is clear, and says where it goes and how much it holds, least significant byte first |
| Uf2.EncodesExactly | util/uf2conv.py:108-129 | writing succeeds if and only if the family and every block's address are 32-bit words |
| Uf2.FirstOffence | util/uf2conv.py:62-96 | the first block that is not as it should be decides which exception is raised |
| Uf2.HeldContiguous | util/uf2conv.py:113-128 | the addresses of the written blocks are contiguous |
| Uf2.RoundTrip | util/uf2conv.py:62-129 | reading what was written gives the content zero-padded to a multiple of 256, from the same start address |

## Left out

- TappingAgreement.RunAgrees: one direction only. An event out of turn and a scan that misses always
  put a mark in the ring out of step (`TappingAgreement.SoundExactly`), but a wrong mark may still be
  overwritten before it is dispatched, depending on the tap keys and times further back in the ring.
- Latency.DeliveredInTime: only for admissible runs, because it says that what was dispatched came in
  order; `Latency.InFlightIsYoung` bounds the age of what is in flight without that.
- TappingEndToEnd.RunTracks: only up to the weak modifiers, which a press clears before it is queued;
  `TappingEffects.RunLeavesOn` has them exactly.
- TappingEndToEnd.RunHoldsOnlyPressed: only for orderly runs without overflow, because it needs agreement.
- TappingEndToEnd.NothingSticks: the same.
- Keyboard.EmptyMatrixIsQuiet: the same.
- ActionHosts.ActionHost.RegisterCode: system and consumer codes, which send reports of their own, mouse
  codes and locking keys are not modelled.
- Macros.SendString: the number of a delay is unbounded, where the C `int` would overflow.
- DeferredExec.RunIsExact: callbacks return a delay but do not themselves edit the table.
- Conditional variants of the tap/hold engine: combos, auto and retro shift, permissive hold, hold
  on other key press, forced hold, terms per key, and terms of 500 ms or more. The K530 enables
  per-key terms but with 300 ms, for which the extra branch is never taken.
- Mod-tap, one-shot, tap-toggle and swap-hands actions, which rewrite the record or the layers on
  release.
- Order, delivery and tap/hold agreement are not promised for runs in which the ring has overflowed.
- Layer, modifier and NKRO report bit masks are sets of bit positions; the 6-key report, with its
  limit of six keys, and when reports are sent are not modelled.
- The source-layer cache assumes at most 256 keys, as its 8-bit key number does.
- The matrix driver, ghosting, debouncing, several keys per scan, and processing on the slave half.
- SPI, GPIO and interrupt hardware: register writes, strobes, the reentrancy guard and the
  reinitialisation of the interrupt handler, and a frame replaced while it is being sent.
- Host-slot debouncing, raw logs and debug printing of the Bluetooth driver.
- Keyboard-level hooks of VIA, its raw HID commands except the EEPROM reset, and buffer-wise access
  to keymap and macros.
- Clearing the keyboard and saving the layers around dynamic macros, and macro keys inside a recorded
  macro: playing is modelled as the records given to `process_record`.
- The callback argument of deferred executors, and the millisecond timer itself: time is a parameter.
- The table-driven `crc8`, which is built for another polynomial.
- Intel HEX, C array and drive handling of `uf2conv.py`. Its messages add a string to a number, so the
  kind of exception differs from the one intended; the model only distinguishes where it is raised.
