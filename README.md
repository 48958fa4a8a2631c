# scems / sces core in Dafny

`scems` (and its successor `sces`) is a Rust framework for STM32-class
microcontrollers on top of an RTOS. Its core, modelled here, is:

- **Peripheral handle registries.** The HAL calls its interrupt callbacks with a raw handle pointer (`UART_HandleTypeDef*`, `GPIO_TypeDef*`, ...). Each peripheral wrapper registers itself in a fixed-size table of optional entries: `SampleQueue`, the older `SampleQueue` without channels, `DeviceQueue`, and the `UARTS`/`SPIS`/`CANS`/`I2CS` tables of the wrapper layers. The C shims look the handle up again and forward the event to the wrapper's event agent. The tables keep their entries packed from the front. Handles are unique, and a search by handle (and channel) finds the first entry.
- **Interrupt routing.** The per-peripheral callback shims of UART, SPI, ADC, CAN, I2C and GPIO map each HAL callback to one event for one agent. GPIO has a sixteen-slot pin table indexed by the lowest set bit of the EXTI mask. CAN and I2C route by role, and their blocking transfers are polling loops.
- **Console.** The command-line tokenizers (the bounded splitter of `dispatch_and_execute` and the `ConsoleCommands` iterator) and the fixed-size buffers (`BufWriter`, the 256-byte `ConsoleCache`). Dispatching a command selects an executor by its first token.
- **Alive watch.** A list of named tasks with their last tick. `check_alive_time` decides whether the watchdog may be refreshed.
- **`StaticCell`.** A write-once cell.
- **The log filter.** A level threshold and an optional stream.
- **Status conversions.** Between the HAL, CMSIS-RTOS2 and C-layer status codes, states, priorities and `ErrValue`/`RetValue`.
- **Memory pools.** The pool-backed global allocators of the CMSIS backends and of `sces`.

Pointers are natural numbers with 0 as null. What the hardware, the RTOS and
foreign code return is passed in as a parameter: a HAL status, a created pool,
whether a `Vec` can grow, or the polls of a waiting loop. Each callback shim
returns the list of agent calls it makes. Tables that the source updates in
place are classes over `array`s, with the contents given by a function over
`seq`s, and lemmas relate the operations to each other.

## Model

| member | source | states |
|---|---|---|
| SampleQueue.ShiftDown | scems/scems-mcu-stm32/src/sample_queue.rs:89-98 | slots `k..m-1` take their successor's value and every other slot keeps its own |
| SampleQueue.SampleQueue.constructor | scems/scems-mcu-stm32/src/sample_queue.rs:36-39 | a new registry has `N` slots, all empty, so its occupied prefix is empty |
| SampleQueue.SampleQueue.FindFrom | scems/scems-mcu-stm32/src/sample_queue.rs:113-133 | the slot found holds a matching entry and no earlier slot of the range does; none is found only when no slot in the range matches |
| SampleQueue.SampleQueue.FindFromExact | scems/scems-mcu-stm32/src/sample_queue.rs:113-133 | the first-match search is fully determined: any answer that is the first match, or "none" when nothing matches, is the one computed |
| SampleQueue.SampleQueue.AllocateSpec | scems/scems-mcu-stm32/src/sample_queue.rs:46-67 | allocation yields an occupied slot index or `StackOverflow` with the slots unchanged; the slot count never changes |
| SampleQueue.SampleQueue.CleanedAsWritten | scems/scems-mcu-stm32/src/sample_queue.rs:74-106 | removal as the loop over `0..N-1` performs it keeps the slot count |
| SampleQueue.SampleQueue.Cleaned | scems/scems-mcu-stm32/src/sample_queue.rs:74-106 | the intended removal keeps the slot count (its meaning is proved by `CleanedRemovesFirstMatch`) |
| SampleQueue.SampleQueue.Allocate | scems/scems-mcu-stm32/src/sample_queue.rs:41-44 | `allocate` is `allocate_channel` on channel 0, on any slots, and keeps packed slots packed |
| SampleQueue.SampleQueue.AllocateChannel | scems/scems-mcu-stm32/src/sample_queue.rs:46-67 | the scan returns the slot of an entry with the same non-null handle and channel, else fills the first empty slot, else fails with `StackOverflow`, on any slots; a packed registry stays packed |
| SampleQueue.SampleQueue.Update | scems/scems-mcu-stm32/src/sample_queue.rs:135-162 | a write through the `&mut T` handed out replaces exactly that slot's entry and keeps the registry packed |
| SampleQueue.SampleQueue.Search | scems/scems-mcu-stm32/src/sample_queue.rs:108-111 | `search` succeeds exactly when an entry of channel 0 with that handle sits before the first empty slot, returning the first such slot; otherwise `InstanceNotFound` |
| SampleQueue.SampleQueue.SearchChannel | scems/scems-mcu-stm32/src/sample_queue.rs:113-162 | `search_channel`/`search_mut_channel` succeed exactly when a matching entry precedes the first empty slot, and the slot returned holds a matching entry; otherwise `InstanceNotFound` |
| SampleQueue.SampleQueue.Clean | scems/scems-mcu-stm32/src/sample_queue.rs:69-72 | `clean` is `clean_channel` on channel 0 and keeps the registry packed |
| SampleQueue.SampleQueue.CleanChannel | scems/scems-mcu-stm32/src/sample_queue.rs:74-106 | the loop as written leaves exactly the slots of `CleanedAsWritten` and keeps the registry packed |
| SampleQueue.SampleQueue.CleanChannelFixed | scems/scems-mcu-stm32/src/sample_queue.rs:89-98 | the loop over all `N` slots, with the last visited slot emptied, leaves exactly the intended removal and keeps the registry packed |
| SampleQueue.SampleQueue.AllocatePacked | scems/scems-mcu-stm32/src/sample_queue.rs:46-67 | allocation preserves the invariant that occupied slots form a contiguous prefix |
| SampleQueue.SampleQueue.AllocateThenFind | scems/scems-mcu-stm32/src/sample_queue.rs:46-67 | after a successful allocation the search by the sample's handle and channel finds exactly the slot returned |
| SampleQueue.SampleQueue.AllocateIdempotent | scems/scems-mcu-stm32/src/sample_queue.rs:46-67 | allocating the same sample a second time returns the same slot and changes nothing |
| SampleQueue.SampleQueue.AllocateFailsWhenFull | scems/scems-mcu-stm32/src/sample_queue.rs:46-67 | allocation fails exactly when no entry matches and every slot is occupied |
| SampleQueue.SampleQueue.UnmatchableTakesFreshSlot | scems/scems-mcu-stm32/src/sample_queue.rs:50-63 | a sample with a null handle, or a channel no entry has, always takes the first empty slot and grows the prefix by one |
| SampleQueue.SampleQueue.CleanedPacked | scems/scems-mcu-stm32/src/sample_queue.rs:74-106 | the intended removal keeps the registry packed |
| SampleQueue.SampleQueue.CleanedAsWrittenPacked | scems/scems-mcu-stm32/src/sample_queue.rs:74-106 | removal as written also keeps the registry packed |
| SampleQueue.SampleQueue.CleanedRemovesFirstMatch | scems/scems-mcu-stm32/src/sample_queue.rs:74-106 | the intended removal takes out exactly the first matching entry: earlier entries stay, later ones move up one slot, the prefix shrinks by one |
| SampleQueue.SampleQueue.CleanedAbsentUnchanged | scems/scems-mcu-stm32/src/sample_queue.rs:74-106 | removing a handle that is not registered changes nothing, as written and as intended |
| SampleQueue.SampleQueue.CleanAgreesWhenNotFull | scems/scems-mcu-stm32/src/sample_queue.rs:78-105 | while some slot is free the loop as written removes exactly as intended |
| SampleQueue.SampleQueue.CleanMissesLastSlot | scems/scems-mcu-stm32/src/sample_queue.rs:78 | on a full registry an entry in the last slot is not removed and is still found |
| SampleQueue.SampleQueue.CleanDuplicatesLastEntry | scems/scems-mcu-stm32/src/sample_queue.rs:78-98 | on a full registry removing an earlier entry leaves the last entry in both of the last two slots and frees no slot |
| LegacySampleQueue.LegacySampleQueue.constructor | scems/src/mcu/vendor/stm/sample_queue.rs:35-38 | a new registry has `N` empty slots |
| LegacySampleQueue.LegacySampleQueue.CleanedAsWritten | scems/src/mcu/vendor/stm/sample_queue.rs:65-87 | `clean` as written panics exactly when the first entry with the handle is in the last slot; otherwise the slot count is kept |
| LegacySampleQueue.LegacySampleQueue.Allocate | scems/src/mcu/vendor/stm/sample_queue.rs:40-63 | on any slots, including those an earlier `clean` left unpacked: the slot of the first entry with the same non-null handle before the first empty slot, else that empty slot now holding the sample, else `StackOverflow`; packed slots stay packed |
| LegacySampleQueue.LegacySampleQueue.Search | scems/src/mcu/vendor/stm/sample_queue.rs:89-112 | on any slots: a null handle is `Param`; otherwise success exactly when an entry with the handle precedes the first empty slot, returning the first, else `InstanceNotFound` |
| LegacySampleQueue.LegacySampleQueue.CleanAsWritten | scems/src/mcu/vendor/stm/sample_queue.rs:65-87 | on any slots, so also after an earlier `clean`: the loop panics exactly when `CleanedAsWritten` says so and otherwise leaves its slots |
| LegacySampleQueue.LegacySampleQueue.Clean | scems/src/mcu/vendor/stm/sample_queue.rs:65-87 | the intended `clean`: the entry leaves, the rest of the prefix moves up, the registry stays packed |
| LegacySampleQueue.LegacySampleQueue.CleanOrphansLaterEntries | scems/src/mcu/vendor/stm/sample_queue.rs:78-79 | with two or more entries after the match, `clean` as written empties the slot after it and cuts off the entries that follow, which no scan reaches again |
| LegacySampleQueue.LegacySampleQueue.CleanPanicsOnLastSlot | scems/src/mcu/vendor/stm/sample_queue.rs:72-79 | on a full registry an entry in the last slot makes `clean` index past the array |
| LegacySampleQueue.LegacySampleQueue.OrphanedNotFound | scems/src/mcu/vendor/stm/sample_queue.rs:72-111 | a handle whose entries all lie past the slot `clean` empties is found by the scan before the removal and not after it |
| LegacySampleQueue.LegacySampleQueue.CleanHidesOrphans | scems/src/mcu/vendor/stm/sample_queue.rs:65-112 | through the methods: `search` finds the cut-off handle, `clean` does not panic, and `search` then returns `InstanceNotFound` |
| LegacySampleQueue.LegacySampleQueue.CutOffHandleAllocatedTwice | scems/src/mcu/vendor/stm/sample_queue.rs:40-87 | after such a `clean`, `allocate` of a wrapper with the cut-off handle stores it in the emptied slot while the cut-off entry stays, so the handle is registered twice |
| LegacySampleQueue.LegacySampleQueue.CleanAgreesOnLastOfPrefix | scems/src/mcu/vendor/stm/sample_queue.rs:65-87 | when the handle is absent, or is the last entry of a non-full registry, `clean` as written removes exactly as intended |
| DeviceQueue.FirstFrom | scems/src/mcu/vendors/stm/common/device_queue.rs:57-67 | the index found satisfies the test and no earlier index from the start does; none is found only when no index does |
| DeviceQueue.DeviceQueue.constructor | scems/src/mcu/vendors/stm/common/device_queue.rs:46-49 | a new queue has `N` empty slots |
| DeviceQueue.DeviceQueue.AllocSpec | scems/src/mcu/vendors/stm/common/device_queue.rs:52-84 | an allocation that fails leaves the slots unchanged and fails only with `Param` (null pointer) or `StackOverflow`; the slot count never changes |
| DeviceQueue.DeviceQueue.CleanSpec | scems/src/mcu/vendors/stm/common/device_queue.rs:87-102 | removal keeps the slot count |
| DeviceQueue.DeviceQueue.FindSpec | scems/src/mcu/vendors/stm/common/device_queue.rs:105-124 | a device found is a non-null stored pointer whose handle is the one asked for; failures are `Param` (null handle) or `NotFound` |
| DeviceQueue.DeviceQueue.Alloc | scems/src/mcu/vendors/stm/common/device_queue.rs:52-84 | the two scans give exactly `AllocSpec`: nothing if a device with the same handle is stored, else the first empty slot takes it, else `StackOverflow` |
| DeviceQueue.DeviceQueue.Clean | scems/src/mcu/vendors/stm/common/device_queue.rs:87-102 | the scan gives exactly `CleanSpec`: the first slot holding that device is emptied |
| DeviceQueue.DeviceQueue.Find | scems/src/mcu/vendors/stm/common/device_queue.rs:105-124 | the scan gives exactly `FindSpec`: the first stored device with that handle |
| DeviceQueue.DeviceQueue.AllocDistinct | scems/src/mcu/vendors/stm/common/device_queue.rs:52-84 | allocation never stores a pointer twice |
| DeviceQueue.DeviceQueue.CleanDistinct | scems/src/mcu/vendors/stm/common/device_queue.rs:87-102 | removal keeps the stored devices distinct |
| DeviceQueue.DeviceQueue.AllocThenFind | scems/src/mcu/vendors/stm/common/device_queue.rs:52-124 | after a successful `alloc` the device's handle is found, and it maps to that device unless another device with the same handle was stored first |
| DeviceQueue.DeviceQueue.CleanThenNotFound | scems/src/mcu/vendors/stm/common/device_queue.rs:87-124 | after `clean` of a stored device its handle is no longer found, when pointers are distinct |
| DeviceQueue.DeviceQueue.AllocOverflowIff | scems/src/mcu/vendors/stm/common/device_queue.rs:52-84 | `alloc` overflows exactly when the device is non-null, no stored device has its handle and every slot is taken |
| DeviceQueue.DeviceQueue.CleanAbsentUnchanged | scems/src/mcu/vendors/stm/common/device_queue.rs:87-102 | cleaning a pointer that is not stored changes nothing |
| GpioPins.Pow2 | scems/src/mcu/vendor/stm/device/io.rs:13-31 | a pin variant's value `1 << k` is positive |
| GpioPins.LowZeros | scems/src/mcu/vendor/stm/device/io.rs:55 | the count of low zero bits within a width never exceeds that width |
| GpioPins.TrailingZeros | scems/src/mcu/vendor/stm/device/io.rs:55 | `u16::trailing_zeros` of a `u16` is at most 16 |
| GpioPins.LowZerosOfZero | scems/src/mcu/vendor/stm/device/io.rs:55 | zero has as many trailing zeros as the width |
| GpioPins.TrailingZerosOfZero | scems/src/mcu/vendor/stm/device/io.rs:116 | a pin mask of 0 gives index 16, one past the 16-entry table |
| GpioPins.Pow2Below | scems/src/mcu/vendor/stm/device/io.rs:13-31 | pin values increase with the bit number |
| GpioPins.LowZerosOfPow2 | scems/src/mcu/vendor/stm/device/io.rs:55 | `1 << k` has exactly `k` trailing zeros |
| GpioPins.MaskIndex | scems/src/mcu/vendor/stm/device/io.rs:53-55 | the value of pin `Pk` fits a `u16` and `trailing_zeros` turns it back into `k`, a table index |
| GpioPins.MaskInjective | scems/src/mcu/vendor/stm/device/io.rs:13-31 | two pins have the same value exactly when they are the same pin |
| PinTable.PinAgentTable.constructor | scems/src/mcu/vendor/stm/device/io.rs:33 | the static table starts with all 16 slots empty |
| PinTable.PinAgentTable.Route | scems/src/mcu/vendor/stm/device/io.rs:114-138 | an EXTI callback calls at most one agent, always with the IO state-change event |
| PinTable.PinAgentTable.SetEventAgent | scems/src/mcu/vendor/stm/device/io.rs:51-58 | `set_event_agent` puts the agent in the slot of the device's pin, whatever its port, and changes no other slot |
| PinTable.PinAgentTable.CleanEventAgent | scems/src/mcu/vendor/stm/device/io.rs:60-64 | `clean_event_agent` empties the slot of the device's pin and no other |
| PinTable.PinAgentTable.ExtiCallback | scems/src/mcu/vendor/stm/wrapper/io.rs:96-119 | the callback calls exactly what `Route` gives for the table and pin (the default agent for an empty slot in the wrapper layers, nothing in the device layer) |
| PinTable.PinAgentTable.SetThenRoute | scems/src/mcu/vendor/stm/device/io.rs:51-58 | after `set_event_agent` for pin `p`, an interrupt on `p` calls that agent once |
| PinTable.PinAgentTable.CleanThenRoute | scems/src/mcu/vendor/stm/wrapper/io.rs:70-74 | after `clean_event_agent` for pin `p`, an interrupt on `p` reaches only the fallback agent, if any |
| PinTable.PinAgentTable.OtherPinUnaffected | scems/src/mcu/vendor/stm/device/io.rs:51-64 | changing the slot of one pin does not change what an interrupt on another pin calls |
| PinTable.PinAgentTable.LastSetterWins | scems/src/mcu/vendor/stm/device/io.rs:51-58 | two devices on the same pin of different ports share a slot: the agent set last receives every interrupt of that pin |
| PinTable.PinAgentTable.CallCount | scems/src/mcu/vendor/stm/device/io.rs:114-120 | an interrupt calls one agent exactly when the pin's slot is set or a fallback exists, else none |
| IoRegistry.NewIo | scems/scems-mcu-stm32/src/device/io.rs:52-55 | `Io::new` fails with `Param` exactly on a null port, and otherwise holds the port and pin with no agent |
| IoRegistry.IoRegistry.constructor | scems/scems-mcu-stm32/src/device/io.rs:110-111 | the registry and the pin table start empty |
| IoRegistry.IoRegistry.AfterSetAgent | scems/scems-mcu-stm32/src/device/io.rs:69-79 | `set_event_agent` stores the agent in the device's own slot |
| IoRegistry.IoRegistry.Route | scems/scems-mcu-stm32/src/device/io.rs:147-171 | an EXTI callback calls at most one agent, always with the IO state-change event |
| IoRegistry.IoRegistry.Allocate | scems/scems-mcu-stm32/src/device/io.rs:119-122 | `IoQueue::allocate` refuses a null port with `Param` and changes nothing; otherwise it is `allocate_channel` with the pin's value as channel |
| IoRegistry.IoRegistry.Clean | scems/scems-mcu-stm32/src/device/io.rs:126-130 | `IoQueue::clean` ignores a null port and otherwise runs `clean_channel` as written with the pin's channel: the slots become `CleanedAsWritten` of the old ones and stay packed |
| IoRegistry.IoRegistry.Search | scems/scems-mcu-stm32/src/device/io.rs:134-139 | `IoQueue::search` refuses a null port with `Param`; otherwise it finds the first entry with that port and pin channel, or `InstanceNotFound` |
| IoRegistry.IoRegistry.SetEventAgent | scems/scems-mcu-stm32/src/device/io.rs:69-79 | the state after `set_event_agent` is `AfterSetAgent` of the old state: the agent is stored and the pin slot points at the entry its search finds, if any |
| IoRegistry.IoRegistry.CleanEventAgent | scems/scems-mcu-stm32/src/device/io.rs:81-85 | `clean_event_agent` empties the pin's slot and nothing else |
| IoRegistry.IoRegistry.ExtiCallback | scems/scems-mcu-stm32/src/device/io.rs:147-171 | the callback calls exactly what `Route` gives for the registry and pin |
| IoRegistry.IoRegistry.AsWrittenPinSearchFails | scems/scems-mcu-stm32/src/device/io.rs:58-64 | as written every `Io` reports channel 0, so a search by a pin's value (never 0) finds nothing |
| IoRegistry.IoRegistry.AsWrittenAllocateAlwaysFresh | scems/scems-mcu-stm32/src/device/io.rs:119-122 | as written `IoQueue::allocate` never finds an existing `Io` and takes a fresh slot each time |
| IoRegistry.IoRegistry.AsWrittenRoutesToFirstOfPort | scems/scems-mcu-stm32/src/device/io.rs:75-77 | as written an interrupt on a line routes to the agent of the first `Io` registered on the same port, not to the line's own agent |
| IoRegistry.IoRegistry.CorrectedRoutesToOwnAgent | scems/scems-mcu-stm32/src/device/io.rs:69-79 | with the pin as channel, after `set_event_agent` an interrupt on the line calls exactly that line's new agent |
| IoRegistry.IoRegistry.CorrectedAllocateKeepsLinesUnique | scems/scems-mcu-stm32/src/device/io.rs:119-122 | with the pin as channel, allocation never registers one port and pin twice |
| DeviceRegistry.NewDevice | scems/scems-mcu-stm32/src/device/uart.rs:38-41 | `Uart::new` (and its `Spi`, `Adc` twins) fails with `Param` exactly on a null handle; a new object holds the handle and no agent |
| DeviceRegistry.Registry.constructor | scems/scems-mcu-stm32/src/device/uart.rs:130 | the static registry starts with every slot empty |
| DeviceRegistry.Registry.AllocateSpec | scems/scems-mcu-stm32/src/device/uart.rs:138-141 | `allocate` fails with `Param` exactly on a null handle, otherwise as the channel registry does (only `StackOverflow`), and a failure changes no slot |
| DeviceRegistry.Registry.Slot | scems/scems-mcu-stm32/src/device/uart.rs:152-155 | the slot found holds an object with that non-null handle, before the first empty slot; a null handle is never found |
| DeviceRegistry.Registry.Notified | scems/scems-mcu-stm32/src/device/uart.rs:160-198 | a HAL callback makes one call, carrying its own event, exactly when its handle is registered and the object found has an agent; otherwise none |
| DeviceRegistry.Registry.Allocate | scems/scems-mcu-stm32/src/device/uart.rs:138-141 | `UartQueue::allocate` leaves exactly the slots and result of `AllocateSpec` and keeps the registry packed |
| DeviceRegistry.Registry.Clean | scems/scems-mcu-stm32/src/device/uart.rs:145-148 | `UartQueue::clean` ignores a null handle and otherwise runs the queue's `clean` as written: the slots become `CleanedAsWritten` of the old ones and stay packed |
| DeviceRegistry.Registry.Search | scems/scems-mcu-stm32/src/device/uart.rs:152-155 | `UartQueue::search` succeeds exactly when `Slot` finds the handle; failures are `Param` for a null handle, else `InstanceNotFound` |
| DeviceRegistry.Registry.SetEventAgent | scems/scems-mcu-stm32/src/device/uart.rs:54-57 | `set_event_agent` through the reference from `allocate` changes only that object's agent |
| DeviceRegistry.Registry.CleanEventAgent | scems/scems-mcu-stm32/src/device/uart.rs:59-62 | `clean_event_agent` through that reference clears only that object's agent |
| DeviceRegistry.Registry.Notify | scems/scems-mcu-stm32/src/device/uart.rs:164-198 | each callback shim makes exactly the calls `Notified` describes |
| DeviceRegistry.Registry.AgentChangeKeepsSlots | scems/scems-mcu-stm32/src/device/uart.rs:54-62 | setting or clearing an agent never changes where any handle is found |
| DeviceRegistry.Registry.AllocateSetThenNotify | scems/scems-mcu-stm32/src/device/uart.rs:138-198 | after `allocate` and `set_event_agent`, a callback for that handle calls the new agent exactly once |
| DeviceRegistry.Registry.CleanAgentThenSilent | scems/scems-mcu-stm32/src/device/uart.rs:59-62 | after `clean_event_agent` the object stays registered but no callback reaches any agent |
| DeviceRegistry.Registry.AllocateKeepsHandlesUnique | scems/scems-mcu-stm32/src/device/uart.rs:138-141 | allocation never registers a handle twice |
| DeviceRegistry.Registry.CleanThenSilent | scems/scems-mcu-stm32/src/device/uart.rs:145-148 | while the registry has a free slot, after `UartQueue::clean` of a handle it is no longer found and its callbacks call nobody |
| DeviceRegistry.Registry.FullCleanKeepsLastCalling | scems/scems-mcu-stm32/src/device/uart.rs:145-148 | on a full registry, `clean` of the device in the last slot changes nothing and its callbacks still call its agent |
| DeviceRegistry.Registry.FullCleanDuplicatesHandle | scems/scems-mcu-stm32/src/device/uart.rs:145-148 | on a full registry, `clean` of a device before the last slot leaves two entries with the same handle |
| DeviceRegistry.Registry.CorrectedCleanThenSilent | scems/scems-mcu-stm32/src/device/uart.rs:145-148 | with the intended removal, a cleaned handle is no longer found and its callbacks call nobody, whether or not the registry was full |
| DeviceRegistry.Registry.OverflowThenSilent | scems/scems-mcu-stm32/src/device/uart.rs:138-141 | when allocation fails, callbacks for that handle call nobody |
| LegacyDevices.DeviceTable.constructor | scems/src/mcu/vendor/stm/wrapper/uart.rs:11 | the static `DeviceQueue` starts empty and no device has an agent |
| LegacyDevices.DeviceTable.Notified | scems/src/mcu/vendor/stm/wrapper/uart.rs:93-150 | a shim makes one call, carrying its own event, exactly when `find` returns a device that has an agent |
| LegacyDevices.DeviceTable.SetEventAgent | scems/src/mcu/vendor/stm/wrapper/uart.rs:38-43 | `set_event_agent` stores the agent on the device, then registers its address; the result is `alloc`'s |
| LegacyDevices.DeviceTable.CleanEventAgent | scems/src/mcu/vendor/stm/wrapper/uart.rs:45-50 | `clean_event_agent` (also run by `Drop`) clears the agent and unregisters the address |
| LegacyDevices.DeviceTable.CleanEventAgentIfSet | scems/src/mcu/vendors/stm/wrapper/adc.rs:47-55 | the ADC wrappers unregister and clear only a device that has an agent; otherwise nothing changes |
| LegacyDevices.DeviceTable.Notify | scems/src/mcu/vendor/stm/wrapper/uart.rs:93-150 | each shim makes exactly the calls `Notified` describes |
| LegacyDevices.DeviceTable.SetThenNotify | scems/src/mcu/vendor/stm/wrapper/uart.rs:38-43 | when no registered device uses the handle and a slot is free, `set_event_agent` succeeds and the shims call the new agent exactly once |
| LegacyDevices.DeviceTable.ShadowedDeviceNotCalled | scems/src/mcu/vendor/stm/wrapper/uart.rs:38-43 | a second device on a handle already registered is not stored (`alloc` still says `Ok`), and the shims keep calling the first device's agent |
| LegacyDevices.DeviceTable.CleanThenSilent | scems/src/mcu/vendor/stm/wrapper/uart.rs:45-50 | after `clean_event_agent` the shims for that handle call nobody |
| LegacyDevices.DeviceTable.SetKeepsAgents | scems/src/mcu/vendor/stm/wrapper/uart.rs:38-43 | `set_event_agent` keeps every registered device with an agent |
| LegacyDevices.DeviceTable.CleanKeepsAgents | scems/src/mcu/vendor/stm/wrapper/uart.rs:45-50 | `clean_event_agent` keeps every registered device with an agent |
| LegacyDevices.DeviceTable.ConditionalCleanAgrees | scems/src/mcu/vendors/stm/wrapper/adc.rs:47-55 | while registered devices all have agents, the ADC wrappers' conditional clean removes exactly what the unconditional one does |
| WatchDog.WatchDogRegistry.constructor | scems/scems-mcu-stm32/src/device/wd.rs:40 | the static registry starts empty |
| WatchDog.WatchDogRegistry.Alloc | scems/scems-mcu-stm32/src/device/wd.rs:48-52 | `alloc` has no null check: it is the channel registry's `allocate`, keeping the registry packed |
| WatchDog.WatchDogRegistry.Clean | scems/scems-mcu-stm32/src/device/wd.rs:55-59 | `clean` ignores a null handle and otherwise runs the queue's `clean` as written: the slots become `CleanedAsWritten` of the old ones and stay packed |
| WatchDog.WatchDogRegistry.Search | scems/scems-mcu-stm32/src/device/wd.rs:62-65 | `search` fails with `Param` on a null handle, with `InstanceNotFound` when no registered watchdog has it, and otherwise returns the slot holding it |
| WatchDog.WatchDogRegistry.NullAllocTakesFreshSlot | scems/scems-mcu-stm32/src/device/wd.rs:48-52 | allocating a null handle always takes a fresh slot that no search can ever find |
| Uart.EventOf | scems/scems-mcu-stm32/src/device/uart.rs:160-223 | only the `RxEvent` callback reaches `on_uart_rx_complete`; every other callback has its own agent method; each shim delivers this event through `Notify` |
| Uart.EventOfInjective | scems/scems-mcu-stm32/src/device/uart.rs:160-223 | each callback maps to a distinct agent method, and the `u16` size of `RxEvent` reaches the agent unchanged as a `u32` |
| Uart.Receive | scems/scems-mcu-stm32/src/device/uart.rs:75-89 | `receive` succeeds exactly when the HAL does, then returns the `u16` count widened to `u32`; otherwise the HAL's error |
| Spi.EventOf | scems/scems-mcu-stm32/src/device/spi.rs:151-229 | each SPI callback maps to one of the five SPI agent methods; each shim delivers this event through `Notify` |
| Spi.EventOfInjective | scems/scems-mcu-stm32/src/device/spi.rs:151-229 | distinct callbacks reach distinct agent methods |
| Spi.TransferSize | scems/scems-mcu-stm32/src/device/spi.rs:70-82 | the size passed to the HAL is the transmit length truncated to `u16` |
| Spi.TransferSizeFits | scems/scems-mcu-stm32/src/device/spi.rs:70-82 | a transmit buffer that fits a `u16` is transferred whole, and one of 65536 bytes becomes a zero-length transfer |
| Adc.EventOf | scems/scems-mcu-stm32/src/device/adc.rs:124-161 | only the conversion-complete callback reaches `on_adc_convert_once_complete`; each shim delivers this event through `Notify` |
| Adc.EventOfInjective | scems/scems-mcu-stm32/src/device/adc.rs:124-161 | distinct callbacks reach distinct agent methods |
| Adc.Convert | scems/scems-mcu-stm32/src/device/adc.rs:58-65 | `convert` succeeds exactly when start and poll succeed, then returns the value read after the three HAL steps; the first failing step's error is returned and no later step runs |
| Adc.ConvertReadsOnlyAfterSuccess | scems/scems-mcu-stm32/src/device/adc.rs:58-65 | the value is read exactly when start and poll succeeded, and polling always uses `ADC_DEF_TIMEOUT` |
| Can.Message.constructor | sces-implements/sces-mcu-stm32/src/device/can.rs:142 | a message holds the head and data it is made with |
| Can.ReceivedHead | sces-implements/sces-mcu-stm32/src/device/can.rs:179 | a received frame always sets the standard id; `sces-mcu-stm32` also copies the extended id, IDE, RTR and DLC, while the `scems` snapshots keep the old values of those |
| Can.FirstStop | sces-implements/sces-mcu-stm32/src/device/can.rs:85-107 | the poll where the retry loop stops is the first that succeeds or comes after more than `timeout` ticks; none when no poll does |
| Can.Retry | sces-implements/sces-mcu-stm32/src/device/can.rs:85-111 | the loop makes exactly one pass per poll up to the first stopping one, and succeeds exactly when the HAL succeeded before the deadline |
| Can.SucceedsIff | sces-implements/sces-mcu-stm32/src/device/can.rs:85-107 | the loop succeeds at poll `k` when the HAL first succeeds there and every earlier failure was within the timeout |
| Can.FailureMeansTimeout | sces-implements/sces-mcu-stm32/src/device/can.rs:103-111 | a failed loop stopped on a poll past the timeout, with every poll up to it failing |
| Can.TransmitSpec | sces-implements/sces-mcu-stm32/src/device/can.rs:74-139 | `transmit` succeeds exactly when a mailbox was added and then drained in time; otherwise the snapshot's busy error, with the mailbox aborted exactly when it was added but still pending |
| Can.Transmit | sces-implements/sces-mcu-stm32/src/device/can.rs:74-139 | the two retry loops of `transmit` give exactly `TransmitSpec` |
| Can.Receive | sces-implements/sces-mcu-stm32/src/device/can.rs:142-182 | `receive` succeeds exactly when the retry loop does; then the data and the snapshot's part of the head are overwritten; on failure the busy error and the message is unchanged |
| Can.RxCalls | sces-implements/sces-mcu-stm32/src/device/can.rs:270-283 | a FIFO-pending interrupt calls `on_can_message_receive` of the device's agent, once, exactly when the device is registered, has a destination, the zero-timeout read succeeded and an agent is set |
| Can.OnRxPending | scems/src/mcu/vendor/stm/wrapper/can.rs:204-226 | the shim body reads into the destination with timeout 0 and makes exactly the `RxCalls` calls; on success the destination holds the frame |
| Can.AsyncReceive | sces-implements/sces-mcu-stm32/src/device/can.rs:194-197 | `async_receive` records only the destination of the next interrupt-driven read |
| Can.RxFifoPending | sces-implements/sces-mcu-stm32/src/device/can.rs:268-295 | both FIFO-pending shims of `sces-mcu-stm32` make exactly the `RxCalls` calls for the device found |
| Can.ErrorCallback | sces-implements/sces-mcu-stm32/src/device/can.rs:307-316 | the error shim calls `on_can_error` of the agent of the registered device, if any |
| Can.LegacyAllocate | scems/src/mcu/vendor/stm/device/can.rs:193-197 | `CanQueue::allocate` refuses a null handle with `Param` and changes nothing; otherwise it is the registry's `allocate` of a new `Can`, on any slot state the legacy `clean` leaves |
| Can.LegacyClean | scems/src/mcu/vendor/stm/device/can.rs:200-204 | `CanQueue::clean` removes the handle's entry (intended removal) |
| Can.LegacyCleanAsWritten | scems/src/mcu/vendor/stm/device/can.rs:200-204 | `CanQueue::clean` runs the legacy queue's loop as written, on any slot state: it panics exactly on a match in the last slot and otherwise leaves the slots that loop produces |
| Can.LegacyRxFifoPending | scems/src/mcu/vendor/stm/device/can.rs:243-277 | the FIFO-pending shims of the device layer make exactly the `RxCalls` calls for the device found, whatever slot state an earlier `clean` left |
| Can.LegacyErrorCallback | scems/src/mcu/vendor/stm/device/can.rs:289-301 | the error shim calls `on_can_error` of the agent of the device the scan finds, if any, on any slot state |
| Can.CanDevices.constructor | scems/src/mcu/vendor/stm/wrapper/can.rs:12 | the static `CANS` queue starts empty; no device has an agent or a destination |
| Can.CanDevices.AsyncReceive | scems/src/mcu/vendor/stm/wrapper/can.rs:172-176 | `async_receive` records the destination of the device and nothing else |
| Can.CanDevices.RxFifoPending | scems/src/mcu/vendor/stm/wrapper/can.rs:204-238 | the wrapper's FIFO-pending shims make exactly the `RxCalls` calls for the device `find` returns |
| Can.CanDevices.ErrorCallback | scems/src/mcu/vendor/stm/wrapper/can.rs:250-262 | the wrapper's error shim makes exactly the device table's `Notified` calls for `on_can_error` |
| Can.RxNeedsDestination | sces-implements/sces-mcu-stm32/src/device/can.rs:270-283 | without a destination no receive notification is made; with a destination and an agent, one is made exactly when the read succeeds |
| Can.ZeroTimeoutRetriesWithinTick | sces-implements/sces-mcu-stm32/src/device/can.rs:85-107 | with timeout 0 the interrupt-time read still retries while no tick has passed, and succeeds when the HAL does within that tick |
| I2c.Route | sces/sces-mcu-stm32/src/device/i2c.rs:424-537 | every callback routes to a role and agent method, except the error callback in mode `None`, which does nothing |
| I2c.RouteIsWellTyped | sces/sces-mcu-stm32/src/device/i2c.rs:424-537 | each routed event belongs to the agent interface of the role searched; distinct callbacks route differently; the error shim's role follows the handle's mode; an address match carries its direction and match code |
| I2c.Routed | sces/sces-mcu-stm32/src/device/i2c.rs:424-537 | a shim calls the routed method once exactly when the handle is registered in the routed role and has an agent; otherwise nothing |
| I2c.AllocateRoleSpec | sces/sces-mcu-stm32/src/device/i2c.rs:321-365 | `allocate_mem`/`_master`/`_slave` refuse a null handle with `Param` and change nothing; a success is a slot holding the requested role; failures are `Param`, `StackOverflow` or `Unknown` |
| I2c.AllocateRole | sces/sces-mcu-stm32/src/device/i2c.rs:321-365 | the role allocation leaves exactly the slots and result of `AllocateRoleSpec` |
| I2c.SearchRoleSpec | sces/sces-mcu-stm32/src/device/i2c.rs:374-418 | `search_*` succeed exactly when the handle is registered in that role, returning its slot; a null handle gives the snapshot's null error, anything else `InstanceNotFound` |
| I2c.SearchRole | sces/sces-mcu-stm32/src/device/i2c.rs:374-418 | the role search returns exactly `SearchRoleSpec` |
| I2c.Shim | sces/sces-mcu-stm32/src/device/i2c.rs:424-537 | each I2C callback shim makes exactly the `Routed` calls for the device registered under its handle |
| I2c.AllocateSetThenRoute | sces/sces-mcu-stm32/src/device/i2c.rs:321-537 | after allocating a role and setting its agent, a callback for that role calls the new agent once, and a callback for another role calls nobody |
| I2c.CrossRoleAllocateFails | sces/sces-mcu-stm32/src/device/i2c.rs:321-365 | allocating a handle already registered in another role fails with `Unknown` and changes nothing |
| I2c.SameRoleReallocate | sces/sces-mcu-stm32/src/device/i2c.rs:321-365 | allocating the same handle and role again returns the same slot and changes nothing |
| I2c.WrongRoleNotFound | sces/sces-mcu-stm32/src/device/i2c.rs:374-418 | a handle registered in one role is `InstanceNotFound` to the search for another |
| I2c.LegacyAllocateRoleSpec | scems/src/mcu/vendor/stm/device/i2c.rs:237-277 | the channel-less registry's role allocation refuses a null handle with `Param`, and a success is a slot holding the requested role |
| I2c.LegacyAllocateRole | scems/src/mcu/vendor/stm/device/i2c.rs:237-277 | the role allocation of `scems::mcu::vendor::stm::device` leaves exactly the slots and result of `LegacyAllocateRoleSpec`, on any slot state |
| I2c.LegacyClean | scems/src/mcu/vendor/stm/device/i2c.rs:279-283 | `I2cQueue::clean` removes the handle's entry (intended removal) |
| I2c.LegacyCleanAsWritten | scems/src/mcu/vendor/stm/device/i2c.rs:279-283 | `I2cQueue::clean` runs the legacy queue's loop as written, on any slot state: it panics exactly on a match in the last slot and otherwise leaves the slots that loop produces |
| I2c.LegacySearchRoleSpec | scems/src/mcu/vendor/stm/device/i2c.rs:286-327 | the role search succeeds exactly when the handle is registered in that role; null is `Param`, anything else `InstanceNotFound` |
| I2c.LegacySearchRole | scems/src/mcu/vendor/stm/device/i2c.rs:286-327 | the role search returns exactly `LegacySearchRoleSpec`, on any slot state |
| I2c.LegacyShim | scems/src/mcu/vendor/stm/device/i2c.rs:333-475 | each shim of the device layer makes exactly the `Routed` calls for the device the scan finds under its handle, on any slot state |
| I2c.LegacyCrossRoleAllocateFails | scems/src/mcu/vendor/stm/device/i2c.rs:237-277 | allocating a handle already registered in another role fails with `Unknown` and changes nothing |
| I2c.WrapperShim | scems/src/mcu/vendors/stm/wrapper/i2c.rs:251-393 | a wrapper shim calls the routed method of whatever device `find` returns, with no role check |
| I2c.WrapperIgnoresRole | scems/src/mcu/vendors/stm/wrapper/i2c.rs:251-393 | the wrapper calls the device's agent for a callback of any role, where the role-checked registries would call nobody |
| ConsoleTokens.SkipSeps | scems-addons/src/service/console/dispartches.rs:45-48 | the position reached is the first non-separator at or after the start (or the end), with only separators skipped |
| ConsoleTokens.RunEnd | scems-addons/src/service/console/dispartches.rs:53-58 | the position reached is the first separator at or after the start (or the end), with no separator inside the run |
| ConsoleTokens.Take | scems-addons/src/service/console/dispartches.rs:43 | at most `n` arguments are kept, and they are the first ones, in order |
| ConsoleTokens.TokensAreTokens | scems-addons/src/service/console/dispartches.rs:43-64 | every argument split off is non-empty and holds no separator |
| ConsoleTokens.BlankHasNoTokens | scems-addons/src/service/console/dispartches.rs:66-69 | a command of separators only (or empty) has no argument |
| ConsoleTokens.NonBlankHasTokens | scems-addons/src/service/console/dispartches.rs:66-69 | a command with any non-separator byte has at least one argument |
| ConsoleTokens.SingleToken | scems-addons/src/service/console/dispartches.rs:43-64 | a single word surrounded by separators is split into exactly that word |
| ConsoleTokens.SplitArgs | scems-addons/src/service/console/dispartches.rs:36-64 | the argument loop of `dispatch_and_execute` yields exactly the first 16 tokens of the command, in order |
| ConsoleTokens.NextToken | scems-addons/src/service/console/dispartches.rs:45-63 | one pass of the skip and scan loops yields the next token of the rest of the line and moves past it, or reaches the end of the line when no token is left |
| ConsoleTokens.ConsoleCommands.constructor | scems-addons/scems-svc-console/src/console.rs:23-26 | a new iterator has every whitespace-separated token of the input still to return |
| ConsoleTokens.ConsoleCommands.Next | scems-addons/scems-svc-console/src/console.rs:33-54 | `next` returns the next token and moves past it, or `None` with the position kept exactly when only whitespace is left |
| ConsoleTokens.NoneIsFinal | scems-addons/scems-svc-console/src/console.rs:33-54 | once `next` finds no token the rest of the input is whitespace, so later calls find none either |
| ConsoleBuffers.Terminated | scems-addons/src/service/console/native.rs:92-103 | `add_end` leaves the content (cut to `len - 2` bytes when it leaves no room) followed by CR LF, never more than the buffer |
| ConsoleBuffers.BufWriter.constructor | scems-addons/src/service/console/native.rs:82-85 | a new writer has written nothing |
| ConsoleBuffers.BufWriter.WriteStr | scems-addons/src/service/console/native.rs:108-121 | `write_str` fails exactly when the string does not fit, then changing nothing; otherwise the bytes follow the content and the rest of the buffer is untouched |
| ConsoleBuffers.BufWriter.AddEnd | scems-addons/src/service/console/native.rs:92-103 | the content after `add_end` is exactly `Terminated` of the old content |
| ConsoleBuffers.Fit | scems-addons/scems-svc-console/src/native/cache.rs:43-55 | `write_str` copies `min(n, 256 - length)` bytes: all of a string that fits, never past 256, nothing when full |
| ConsoleBuffers.ConsoleCache.constructor | scems-addons/scems-svc-console/src/native/cache.rs:14-17 | a new cache is 256 zero bytes with no content |
| ConsoleBuffers.ConsoleCache.Clean | scems-addons/scems-svc-console/src/native/cache.rs:29-33 | `clean` zeroes every byte and empties the content |
| ConsoleBuffers.ConsoleCache.SetLength | scems-addons/scems-svc-console/src/native/cache.rs:35-38 | `set_length` stores the length unchecked |
| ConsoleBuffers.ConsoleCache.WriteStr | scems-addons/scems-svc-console/src/native/cache.rs:43-55 | `write_str` always succeeds, appends the prefix of the string that fits and keeps the other bytes |
| ConsoleBuffers.CacheAppend | scems-addons/scems-svc-console/src/native/cache.rs:43-55 | appending keeps the old content as a prefix, loses nothing of a string that fits and otherwise fills exactly 256 bytes |
| ConsoleBuffers.TerminalSlot.constructor | scems-addons/src/service/console/native.rs:20-27 | a new console has no terminal |
| ConsoleBuffers.TerminalSlot.AssignSerialTerminal | scems-addons/src/service/console/native.rs:34-43 | a terminal is taken only when none is assigned; otherwise `StackOverflow` and the assigned one stays |
| ConsoleBuffers.TerminalSlot.UnassignTerminal | scems-addons/src/service/console/native.rs:45-49 | after `unassign_terminal` no terminal is assigned |
| ConsoleDispatch.FirstNamed | scems-addons/src/service/console/dispartches.rs:74-83 | the executor found is the first with that name; none exactly when no name matches |
| ConsoleDispatch.PlanFor | scems-addons/src/service/console/dispartches.rs:34-86 | no argument means no command; otherwise the first argument's first executor runs with the remaining (at most 15) arguments, or the command is unknown exactly when no executor has that name |
| ConsoleDispatch.Outcome | scems-addons/src/service/console/dispartches.rs:66-86 | an empty command gives `Param`, an unknown one `NotFound`, and otherwise the executor's own result |
| ConsoleDispatch.DispatchAndExecute | scems-addons/src/service/console/dispartches.rs:34-86 | the loop picks exactly `PlanFor`'s executor and arguments and returns `Outcome` of it |
| ConsoleDispatch.BareNameRuns | scems-addons/src/service/console/dispartches.rs:34-86 | a command that is just a registered name (with separators around it) runs that executor with no arguments |
| ConsoleDispatch.ParamsCapped | scems-addons/src/service/console/dispartches.rs:36-72 | an executor never gets more than 15 arguments |
| ConsoleDispatch.FirstFree | scems-addons/scems-svc-console/src/console/dispatch.rs:37-49 | the slot found is the first empty one; none exactly when all 16 are taken |
| ConsoleDispatch.Matching | scems-addons/scems-svc-console/src/console/dispatch.rs:59-66 | the slots listed are exactly those whose executor has the name, in increasing order |
| ConsoleDispatch.DispatchCore.constructor | scems-addons/scems-svc-console/src/console/dispatch.rs:28-35 | a new core has 16 empty executor slots, an empty cache and no pending signal |
| ConsoleDispatch.DispatchCore.SubmitExecutor | scems-addons/scems-svc-console/src/console/dispatch.rs:37-49 | an executor takes the first empty slot exactly when one exists; otherwise `StackOverflow` and nothing changes |
| ConsoleDispatch.DispatchCore.Dispatch | scems-addons/scems-svc-console/src/console/dispatch.rs:51-69 | a failed receive is returned, a failed wait is `Overtime`, an empty line is `FormatFailure`; otherwise `Ok` after running every executor named by the first token, in slot order |
| ConsoleDispatch.DispatchCore.SetDispatchSignal | scems-addons/scems-svc-console/src/console/dispatch.rs:71-83 | a non-zero length reaches the cache and signals the task unless the cache is borrowed; otherwise nothing changes |
| ConsoleDispatch.SubmittedIsRun | scems-addons/scems-svc-console/src/console/dispatch.rs:37-66 | an executor submitted into a free slot is among those run for its name |
| ConsoleDispatch.NamesOf | sces-addons/sces-svc-console/src/native/dispatch.rs:41-46 | the names of the queue, slot by slot |
| ConsoleDispatch.SearchExe | sces-addons/sces-svc-console/src/native/dispatch.rs:41-46 | `search_exe` returns the first executor with the name; none exactly when no executor has it |
| ConsoleDispatch.AcceptKeepsEarlierMatch | sces-addons/sces-svc-console/src/native/dispatch.rs:48-51 | accepting a new executor never changes what an existing name finds |
| ConsoleDispatch.AcceptedIsFound | sces-addons/sces-svc-console/src/native/dispatch.rs:48-51 | a newly accepted executor with a fresh name is found by that name |
| ConsoleDispatch.NativeDispatchCore.constructor | sces-addons/sces-svc-console/src/native/dispatch.rs:32-39 | a new core has no executors, an empty cache and no pending signal |
| ConsoleDispatch.NativeDispatchCore.AcceptDispatch | sces-addons/sces-svc-console/src/native/dispatch.rs:48-51 | `accept_dispatch` appends the executor when the queue can grow, and otherwise returns the error and changes nothing |
| ConsoleDispatch.NativeDispatchCore.WaitAndDispatch | sces-addons/sces-svc-console/src/native/dispatch.rs:53-66 | a failed receive is returned, a failed wait is the snapshot's wait error, no token is `FormatFailure`, an unknown name `InstanceNotFound`; otherwise the first executor with the name gets an iterator over the remaining tokens and its result is returned |
| ConsoleDispatch.NativeDispatchCore.SetDispatchSignal | sces-addons/sces-svc-console/src/native/dispatch.rs:68-80 | a non-zero length reaches the cache and signals the task unless the cache is borrowed; otherwise nothing changes |
| Alive.NewStatus | scems-addons/scems-svc-alive/src/native/status.rs:10-13 | a new entry carries the name, is enabled and is alive at the given tick |
| Alive.Elapsed | scems-addons/scems-svc-alive/src/native/status.rs:30-33 | the ticks since the last sign of life on a `u32` counter: the plain difference, or the wrapped one when the counter has wrapped since |
| Alive.FirstFailure | sces-addons/sces-svc-alive/src/native/queue.rs:40-43 | `try_for_each` is `Ok` exactly when every task is, and otherwise the first failure in list order |
| Alive.WithTick | scems-addons/scems-svc-alive/src/native/queue.rs:34-37 | `update_all_ticks` keeps every task and its flag and sets every tick to the given one |
| Alive.PushSpec | scems-addons/scems-svc-alive/src/native/queue.rs:22-32 | a name already watched is `InstanceDuplicate` and a failed reserve is its error, both leaving the list; otherwise the task is appended, enabled, at the current tick, and its index returned |
| Alive.AliveWatchQueue.constructor | scems-addons/scems-svc-alive/src/native/queue.rs:17-20 | a new queue watches no task |
| Alive.AliveWatchQueue.AttemptPush | scems-addons/scems-svc-alive/src/native/queue.rs:22-32 | `attempt_push` gives exactly `PushSpec`'s result and list, keeping names unique |
| Alive.AliveWatchQueue.UpdateAllTicks | scems-addons/scems-svc-alive/src/native/queue.rs:34-37 | the list becomes `WithTick` of the old one |
| Alive.AliveWatchQueue.SetEnable | scems-addons/scems-svc-alive/src/native/status.rs:20-23 | only the addressed task's flag changes |
| Alive.AliveWatchQueue.UpdateTick | scems-addons/scems-svc-alive/src/native/status.rs:25-28 | only the addressed task's tick changes |
| Alive.AliveWatchQueue.CheckAliveTime | scems-addons/scems-svc-alive/src/native/queue.rs:39-44 | with `is_alive` corrected: `Ok` exactly when every task showed life within `max` ticks, otherwise `Overtime` |
| Alive.AliveWatchQueue.CheckAliveTimeAsWritten | scems-addons/scems-svc-alive/src/native/queue.rs:39-44 | with `is_alive` as written: `Ok` exactly when every task has been silent for more than `max` ticks, otherwise `Overtime` |
| Alive.AliveWatchQueue.CheckEach | sces-addons/sces-svc-alive/src/native/queue.rs:40-43 | the verdict of the list is the first failing task's verdict, or `Ok` |
| Alive.PushKeepsNamesUnique | scems-addons/scems-svc-alive/src/native/queue.rs:22-32 | `attempt_push` keeps names unique, and the returned index holds the pushed name |
| Alive.UpdatedIsAlive | scems-addons/scems-svc-alive/src/native/queue.rs:34-44 | right after `update_all_ticks(now)` every task passes the corrected check at `now`, whatever the period |
| Alive.SilentIsDead | scems-addons/scems-svc-alive/src/native/status.rs:30-33 | a task silent for more than `max` ticks fails the corrected check |
| Alive.AsWrittenRejectsFreshTask | scems-addons/scems-svc-alive/src/native/status.rs:30-33 | as written, a task that has just shown life fails `is_alive`, while the corrected check passes it |
| StaticCell.StaticCell.constructor | scems/scems/src/cell.rs:15-18 | a new cell is unset |
| StaticCell.StaticCell.Set | scems/scems/src/cell.rs:20-28 | only the first `set` stores its value and returns it; every later one is `InstanceDuplicate` and changes nothing |
| StaticCell.StaticCell.Get | scems/scems/src/cell.rs:30-34 | `get` sees nothing before the first `set` and the stored value after it |
| StaticCell.SetTwice | scems/scems/src/cell.rs:20-34 | on a fresh cell a second `set` fails and `get` still returns the first value |
| Log.Rank | scems/src/common/log.rs:3-10 | levels are ordered by declaration, `Error` the lowest and `Debug` the highest |
| Log.LogWriter.constructor | scems/src/common/log.rs:46-49 | the writer starts at threshold `Warn` with no stream |
| Log.LogWriter.AssignStream | scems/src/common/log.rs:51-54 | the stream is replaced and the threshold kept |
| Log.LogWriter.SetLevel | scems/src/common/log.rs:67-70 | the threshold is replaced and the stream kept |
| Log.LogWriter.FormatWrite | scems/src/common/log.rs:56-65 | with the comparison corrected: a message reaches the stream exactly once when a stream is assigned and its level is at or below the threshold, and otherwise not at all |
| Log.LogWriter.FormatWriteAsWritten | scems/src/common/log.rs:56-65 | with the comparison as written: a message reaches the stream exactly once when a stream is assigned and its level is strictly more severe than the threshold, and otherwise not at all |
| Log.ThresholdMonotone | scems/src/common/log.rs:56-65 | raising the threshold never blocks what passed before, and `Error` passes every threshold |
| Log.ThresholdAdmitsItself | scems/src/common/log.rs:58 | with the correction, every threshold lets its own level through |
| Log.AsWrittenNeverWritesDebug | scems/src/common/log.rs:58 | as written, no threshold lets `Debug` through and the default `Warn` passes only `Error` |
| HalStatus.Code | sces-implements/sces-mcu-stm32/src/native.rs:33-39 | only `HAL_OK` has the value 0 |
| HalStatus.ToRetValue | sces-implements/sces-mcu-stm32/src/native.rs:49-61 | only `HAL_OK` is `Ok`; error is `Param`, busy and timeout are the crate's busy and timeout errors (`Busy`/`Timeout` here, `BusBusy`/`Overtime` in scems/src/mcu/vendors/stm/native/common.rs:39-51) |
| HalStatus.ToErrValue | sces-implements/sces-mcu-stm32/src/native.rs:63-75 | `HAL_OK` is `None`, the failures map as in the `RetValue` conversion (`BusBusy`/`Overtime` in scems/src/mcu/vendors/stm/native/common.rs:53-65) |
| HalStatus.ConversionsAgree | sces-implements/sces-mcu-stm32/src/native.rs:49-75 | in both crates the two separately written conversions agree: a failure's `RetValue` carries its `ErrValue`, and only `HAL_OK` is `None` |
| HalStatus.FailuresDistinct | sces-implements/sces-mcu-stm32/src/native.rs:63-75 | in both crates different statuses give different errors |
| CmwStatus.ToErrValue | sces-implements/sces-cmw/src/native.rs:30-56 | every C status has an `ErrValue`, and only `Ok` gives `None` |
| CmwStatus.FromErrValue | sces-implements/sces-cmw/src/native.rs:58-84 | every error of the C layer has a status, and only `None` gives `Ok` |
| CmwStatus.RoundTrips | sces-implements/sces-cmw/src/native.rs:30-84 | the two conversions are inverse to each other on every status and every error the C layer knows |
| CmwStatus.Map | sces-implements/sces-cmw/src/native.rs:86-96 | `map` is `Ok(value)` exactly for `Ok`, and otherwise the status's own error, which converts back to it |
| CmwStatus.FromCodeAsWritten | sces-implements/sces-cmw/src/native.rs:8-28 | reading a C value with the Rust discriminants yields the status whose Rust discriminant is that value |
| CmwStatus.FromCode | sces-implements/sces-cmw/src-cwraps/inc/sces.h:12-32 | reading a C value with the header's values yields the status the header gives that value |
| CmwStatus.FromCodeInvertsHeader | sces-implements/sces-cmw/src-cwraps/inc/sces.h:12-32 | every status written by the C side reads back as itself |
| CmwStatus.CodesAgreeOnlyUpToNullRef | sces-implements/sces-cmw/src/native.rs:8-28 | the Rust discriminants agree with the header exactly up to `ErrNullRef` and for `ErrUnknown` |
| CmwStatus.AsWrittenMisreadsHeader | sces-implements/sces-cmw/src/native.rs:8-28 | as written, the header's memory-allocation failure reads as a format failure, and its format failure and instance-not-found read as no status |
| CmwOs.ToOsState | sces-implements/sces-cmw/src/os/native.rs:73-89 | the running and unknown-error states map to each other |
| CmwOs.ToTaskState | sces-implements/sces-cmw/src/os/native.rs:105-120 | the running and unknown task states map to each other |
| CmwOs.ToTimerState | sces-implements/sces-cmw/src/os/native.rs:191-205 | the active and unknown timer states map to each other |
| CmwOs.OsStateBijective | sces-implements/sces-cmw/src/os/native.rs:73-89 | the OS state conversion maps distinct states to distinct states and reaches every OS state |
| CmwOs.TaskStateBijective | sces-implements/sces-cmw/src/os/native.rs:105-120 | the task state conversion maps distinct states to distinct states and reaches every task state |
| CmwOs.TimerStateBijective | sces-implements/sces-cmw/src/os/native.rs:191-205 | the timer state conversion maps distinct states to distinct states and reaches every timer state |
| CmwOs.PriorityCode | sces-implements/sces-cmw/src/os/native.rs:125-140 | the C priorities run from 0 to 7 and only `MAX` is 7 |
| CmwOs.FromTaskPriority | sces-implements/sces-cmw/src/os/native.rs:142-158 | a priority maps to the C priority at the same position |
| CmwOs.ToTaskPriority | sces-implements/sces-cmw/src/os/native.rs:160-176 | a C priority maps to the priority at the same position |
| CmwOs.PriorityRoundTrips | sces-implements/sces-cmw/src/os/native.rs:142-176 | the two priority conversions are inverse to each other and keep the order, and `MAX` is the highest |
| CmsisNative.StatusCode | scems/scems-os-cmsis/src/native.rs:73-83 | only `osOK` is 0; the errors are -1 to -6 |
| CmsisNative.ToErrValue | scems/scems-os-cmsis/src/native.rs:105-121 | `osOK` is `None`; error and parameter are `Param`, timeout `Busy`, resource `Overtime`, no memory `MemAllocFailure`, ISR `Permission`, the reserved value `Unknown` |
| CmsisNative.ToRetValue | scems/scems-os-cmsis/src/native.rs:93-103 | only `osOK` is `Ok`, and every failure carries its `ErrValue` |
| CmsisNative.ErrorTableMerges | scems/scems-os-cmsis/src/native.rs:105-121 | the only two statuses that share an error are `osError` and `osErrorParameter` |
| CmsisNative.FlagsErrorOf | scems/scems-os-cmsis/src/native.rs:25-35 | each flags error constant is its status value as a `u32` |
| CmsisNative.FlagsErrorsHaveErrorBit | scems/scems-os-cmsis/src/native.rs:25-35 | every flags error constant has the `osFlagsError` bit set |
| CmsisNative.OsPriority | scems/scems-os-cmsis/src/native.rs:206-222 | the CMSIS priorities are at most 48 and only `None` maps to 0 |
| CmsisNative.OsPriorityStrictlyIncreasing | scems/scems-os-cmsis/src/native.rs:149-222 | the conversion keeps the order of priorities both ways |
| CmsisNative.TimerType | scems/scems-os-cmsis/src/native.rs:225-241 | a one-shot timer is 0 and a periodic one 1 |
| CmsisNative.NewThreadAttr | scems/scems-os-cmsis/src/native.rs:264-282 | a thread attribute carries the name, stack size and converted priority, is detached and uses no caller memory |
| MemPools.FirstFit | scems/scems-os-cmsis/src/mem.rs:87-98 | the block chosen is the first usable one that holds the request; none exactly when no block does |
| MemPools.FirstFitIsBestFitWhenSorted | scems/scems-os-cmsis/src/mem.rs:87-98 | with block sizes in increasing order, the first fit is also the smallest block that holds the request |
| MemPools.Trunc32 | scems/scems-os-cmsis/src/mem.rs:103-113 | a layout size is taken as a `u32`, unchanged when it fits |
| MemPools.Request | scems/scems-os-cmsis/src/mem.rs:53-74 | the pool request of a zone has its count, size and address, and `count * size` bytes as a `u32` |
| MemPools.FirstFailure | scems/scems-os-cmsis/src/mem.rs:53-74 | the zone where initialisation stops is the first attempted one whose pool was not created; none exactly when all attempted pools were |
| MemPools.LiveHandles | scems/scems-os-cmsis/src/mem.rs:76-85 | the pools `finalize` deletes are the non-null handles, each block's at most once |
| MemPools.CmsisMemSpace.constructor | scems/scems-os-cmsis/src/mem.rs:48-51 | a new space has four empty blocks |
| MemPools.CmsisMemSpace.Initialize | scems/scems-os-cmsis/src/mem.rs:53-74 | `initialize` creates pools in zone order up to the first failure, which is `InstanceCreate`; each block reached records its pool, count and size, the others are kept |
| MemPools.CmsisMemSpace.Finalize | scems/scems-os-cmsis/src/mem.rs:76-85 | `finalize` deletes exactly the live pools |
| MemPools.CmsisMemSpace.ChooseBlock | scems/scems-os-cmsis/src/mem.rs:87-98 | `choose_block` returns the pool of the first block large enough, or `MemAlloc` when none is |
| MemPools.CmsisMemSpace.Alloc | scems/scems-os-cmsis/src/mem.rs:103-113 | `alloc` allocates from the first block large enough, or returns null |
| MemPools.CmsisMemSpace.Dealloc | scems/scems-os-cmsis/src/mem.rs:115-121 | `dealloc` returns memory to the first block large enough for its size, or does nothing |
| MemPools.NativeMemSpace.constructor | sces-implements/sces-os-cmsis/src/mem.rs:50-53 | a new space has four empty blocks |
| MemPools.NativeMemSpace.Initialize | sces-implements/sces-os-cmsis/src/mem.rs:55-66 | `initialize` skips zones without blocks, creates the others up to the first failure, which is `MemAllocFailure`, records each pool created, and issues the requests exactly in zone order |
| MemPools.NativeMemSpace.Alloc | sces-implements/sces-os-cmsis/src/mem.rs:71-78 | `alloc` allocates from the first non-empty block large enough, or returns null |
| MemPools.NativeMemSpace.Dealloc | sces-implements/sces-os-cmsis/src/mem.rs:81-87 | `dealloc` returns memory to the first non-empty block large enough, or does nothing |
| MemPools.NativeMemSpace.Find | sces-implements/sces-os-cmsis/src/mem.rs:71-78 | the block searched for is the first non-empty one large enough |
| MemPools.MemorySpace.constructor | sces/sces/src/os/mem.rs:98-106 | a new space has the four configured sizes and counts and no pool |
| MemPools.MemorySpace.Initialize | sces/sces/src/os/mem.rs:108-115 | `initialize` creates the four pools in order, stopping at the first failure, whose error it returns; pools before it are recorded, the others kept |
| MemPools.MemorySpace.SpaceFor | sces/sces/src/os/mem.rs:132-154 | the size cascade picks exactly the first space whose block size holds the request |
| MemPools.MemorySpace.Alloc | sces/sces/src/os/mem.rs:132-154 | `alloc` goes to `SpaceFor`'s space, giving its pool's block, or null when there is no such space or it has no pool |
| MemPools.MemorySpace.Dealloc | sces/sces/src/os/mem.rs:156-174 | `dealloc` frees into `SpaceFor`'s pool exactly when that space exists and has a pool |
| OsTypes.PriorityRank | sces/sces-os/task.rs:31-41 | priorities are ordered by declaration, `None` the lowest and `RealTime` the highest |

## Left out

- Vendor HAL and RTOS calls are foreign code. Their results are parameters: a status, a received count, a created pool handle, a wait outcome, or the polls of a retry loop. The agents' own methods are only named in the calls a shim returns.
- Interrupts preempting tasks on the `static mut` tables are not modelled, because the model is sequential and every shim is one atomic call. The `RefCell` borrow of the console cache is modelled only as the `cacheBusy` parameter.
- Real tick timing in the CAN transmit and receive loops is not modelled. Each loop pass is an oracle poll that carries the ticks elapsed so far.
- `WatchDog::refresh` is a single HAL call with nothing to state, so it is not modelled.
- scems/src/mcu/vendor/stm/device/uart.rs is not modelled: it calls registry functions that do not exist in that snapshot, and its callbacks search a table that nothing fills.
- `SafeVec`/`MemQueue` growth and `Vec::attempt_push` depend only on the allocator, so they are the `reserve` parameter.
- Mutex lock failures, the task mains, and `core::fmt` formatting are not modelled. A formatted message is a string.
- DMA filling the console cache is not modelled. The received length is the argument of `set_dispatch_signal`, and the cache contents are taken as they are.
- ConsoleDispatch.DispatchCore.Dispatch: the executors all share one argument iterator and each may advance it, so the model returns only the slots run, in order, and not what each one consumed.
- The `ConsoleServiceDispatches` assign/remove list is not modelled: it is a `MemQueue`, which is not part of this model.
- `as u16` casts of buffer lengths passed to the HAL are not modelled, except the SPI transfer size, where the wrap to 0 is modelled.
- `osThreadAttr_t::new` keeps the caller's name pointer, and the model does not check that the name is NUL-terminated.
- Debug builds panic on overflow; the model follows release builds. Alive.Elapsed wraps on `u32` where a debug build would panic, and MemPools.Request truncates `count * size` to `u32`.
- Alive.AliveWatchQueue.SetEnable and Alive.AliveWatchQueue.UpdateTick require a handle inside the list, because indexing past the `Vec` panics.
- ConsoleBuffers.BufWriter.AddEnd requires a buffer of at least two bytes, because `len - 2` underflows otherwise.
- ConsoleDispatch.DispatchCore.Dispatch and ConsoleDispatch.NativeDispatchCore.WaitAndDispatch require a cache length of at most 256, because `as_bytes` panics past the buffer.
- IoRegistry.IoRegistry.Route reads a pin-table slot whose registry entry `clean` has emptied as making no call. In the source that slot holds a dangling pointer and dereferencing it is undefined behaviour.
- The GPIO callback shims require a mask with a bit set. `trailing_zeros(0)` is 16, which indexes past the pin table and panics.
- Methods that act on a registered device (`SetEventAgent`, `CleanEventAgent`, `AsyncReceive`, ...) take the slot index where the source passes the `&mut` that a search returned. Requiring that the slot is occupied is what holding that reference means.
- The legacy `SampleQueue::clean` indexes past the array when the match is in the last slot. LegacySampleQueue.LegacySampleQueue.CleanAsWritten models that as a `panicked` result instead of a precondition.
- The `sces` registries (`SampleQueue`, `vendor::stm::common::DeviceQueue`) and `ConsoleCommandsParser` are outside the model. They are assumed to behave as the `scems` versions, with a missing token giving `FormatFailure`.
- The per-task `check_alive` of `sces` is outside the model, so Alive.AliveWatchQueue.CheckEach takes its verdicts as a parameter.
- The `TaskPriority`/`TimerMode` of `scems-os` are taken to match the `sces` enums, which list the same variants in the same order.
- The third HAL conversion file, scems/src/mcu/vendor/stm/native/common.rs, differs from scems/src/mcu/vendors/stm/native/common.rs only in type names. The `SCEMS_HAL` flavour of HalStatus models both.
- The `scems` `ErrValue` variant `FormatFaliure` is spelled `FormatFailure` in the model. The model's `ErrValue` is the union of the variants both crates use.
- Can.LegacyClean: computes the intended removal, while `CanQueue::clean` runs the legacy loop as written, which cuts off later entries and panics on a last-slot match. Can.LegacyCleanAsWritten models the source's behaviour, and it does not promise that the queue stays packed.
- I2c.LegacyClean: computes the intended removal, while `I2cQueue::clean` runs the legacy loop as written. I2c.LegacyCleanAsWritten models the source's behaviour, and it does not promise that the queue stays packed.
- Log.LogWriter.FormatWrite: filters with the corrected `<=`, while log.rs:58 uses `<`. Log.LogWriter.FormatWriteAsWritten computes the source's filter.
- Alive.AliveWatchQueue.CheckAliveTime: uses the corrected `is_alive`, while status.rs:30-33 rejects a task that has just shown life. Alive.AliveWatchQueue.CheckAliveTimeAsWritten computes the source's check.
- SampleQueue.SampleQueue.Clean, SampleQueue.SampleQueue.CleanChannel and SampleQueue.SampleQueue.CleanedAsWritten require at least one slot. With no slots, `len() - 1` underflows: a debug build panics there, and a release build wraps and then panics when it indexes slot 0.
- DeviceRegistry.Registry.Clean, WatchDog.WatchDogRegistry.Clean and IoRegistry.IoRegistry.Clean require at least one slot for the same reason.

## Findings

| source | as written | input that shows it | evidently intended | confidence | as-written member | corrected member |
|---|---|---|---|---|---|---|
| scems/scems-mcu-stm32/src/sample_queue.rs:78 | `clean_channel` loops over `0..len-1`, so it never looks at the last slot | a full registry whose match is in slot N-1 keeps it; a full registry with the match earlier ends with the last entry in both slots N-2 and N-1 | remove the matching entry, shift the later ones left, and empty the last occupied slot | not executed | SampleQueue.SampleQueue.CleanDuplicatesLastEntry | SampleQueue.SampleQueue.CleanedRemovesFirstMatch |
| scems/src/mcu/vendor/stm/sample_queue.rs:78-79 | `clean` moves only the next entry forward and empties `idx + 1` | packed slots `[a, b, c, None]` with `clean(a)` give `[b, None, c, None]`: `search(c)` succeeds before and is `InstanceNotFound` after, and a new `allocate` of `c` stores it twice; a match in the last slot indexes slot N | remove the entry and keep the remaining entries packed | not executed | LegacySampleQueue.LegacySampleQueue.OrphanedNotFound | LegacySampleQueue.LegacySampleQueue.Clean |
| scems/scems-mcu-stm32/src/device/io.rs:58-79 | `Io` reports channel 0 while `IoQueue` stores it under its pin's channel, and `set_event_agent` searches by port with channel 0 | two lines of one port, such as PA0 then PA5: setting PA5's agent points pin 5's slot at PA0's entry | each pin's table slot refers to its own entry | not executed | IoRegistry.IoRegistry.AsWrittenRoutesToFirstOfPort | IoRegistry.IoRegistry.CorrectedRoutesToOwnAgent |
| scems-addons/scems-svc-alive/src/native/status.rs:30-33 | `is_alive` is `tick - alive_tick > max_time` | a task updated at `now` with any `max`: `is_alive` is false, so `check_alive_time` is `Overtime` | alive when the gap is at most `max_time` | not executed | Alive.AsWrittenRejectsFreshTask | Alive.UpdatedIsAlive |
| scems/src/common/log.rs:58 | a message passes when `level < self.level` | `debug!` at any threshold and `warn!` at the default threshold `Warn` are dropped | a message passes at or below the threshold | not executed | Log.AsWrittenNeverWritesDebug | Log.ThresholdAdmitsItself |
| sces-implements/sces-cmw/src/native.rs:8-28 | the Rust discriminants of `ScesRetVal` count on from 7 where the C header jumps to 16, 32 and 48 | the header's `SCES_RET_ERR_MEM_ALLOC_FAILURE` (16) reads as `ErrFormatFailure`; 17 and 33 read as no variant | the discriminants equal the header's values | not executed | CmwStatus.AsWrittenMisreadsHeader | CmwStatus.FromCodeInvertsHeader |
| scems/scems-mcu-stm32/src/device/uart.rs:145-148 | `UartQueue::clean` (and the SPI, ADC, watchdog and IO registries' `clean`) runs the `sample_queue.rs:78` loop, which never visits the last slot | a full registry `[a, b]` with an agent set for `b`: after `clean(b)`, `b` is still registered and its callbacks still reach that agent; a full `[a, b, c]` after `clean(a)` holds `c` twice | a cleaned device is no longer found and its callbacks call nobody | not executed | DeviceRegistry.Registry.FullCleanKeepsLastCalling | DeviceRegistry.Registry.CorrectedCleanThenSilent |
