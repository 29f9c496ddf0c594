# SmartCell luminary firmware: a verified model

A street-light node runs on mbed OS and a LoRa modem. This project models the parts of its
firmware that carry logic and proves what they guarantee:

- **The software CRC driver** (`MbedCRC`). The bitwise loops, the byte-table loops, the
  right-shifting nibble loop, reflection, the constructor with its ROM tables, and the
  start / partial / stop protocol are methods on 32-bit words. Each is proved against an ideal
  register (`CrcRegister.Register`), and the register is proved to be the remainder of a division
  of polynomials over GF(2). The ROM tables are modelled word by word.
- **Event handles** (`Event`). Reference counting on control blocks, as operations on memory: a
  map of handles, a map of allocated blocks and a trace of what was allocated, destructed and
  released.
- **MAC events** (`mDotEvent`, `EventSlot`). The shared record that the radio callbacks fill and
  clear, and the rule by which packets, stale ones included, reach the receive callback.
- **The luminary program** (`luminary.cpp`). Downlink commands, saving to EEPROM, start-up, the
  endless loop and its delay, as one class whose methods are proved against functions on a state;
  theorems about whole runs of commands, turns and restarts are proved about these functions.
- **The components**: status LED, photocell, dimming curves, switching by time, demonstration,
  light controller and light output.

`dafny verify dfyconfig.toml` checks the whole project.

## Files

| files | content |
|---|---|
| `Machine`, `Gf2`, `Remainders`, `Binary32` | machine integers; numbers as polynomials over GF(2); counting modulo n; rounding to floats and doubles |
| `CrcRegister`, `Mirroring`, `CrcSteps` | the ideal register and its algebra; bit reversal; single steps of the loops |
| `MbedCrc`, `CrcTheorems`, `CrcChunks` | the driver; theorems about its checksums; whether computing in parts can be seen |
| `BitVectors`, `TableAlgebra`, `ShortTables`, `CrcTables`, `RomWords` | words as numbers; how a table follows from its powers of two; a table in a narrower register; the ROM words |
| `RomTables`, `WrongEntries`, `RomChecksums` | the constructor, and where its tables are right; checksums from a table with wrong entries; checksums from the ROM tables |
| `EventHandles`, `EventHistory` | reference counting; what a post hands over, over runs |
| `MacEvents`, `MacRecord` | radio events and the packets they deliver; what the record tells |
| `LedHandler`, `PhotoCell`, `DimmingCurves`, `OnOffByTime`, `DimmingDemo`, `LightOutput`, `LightController` | the components |
| `LuminaryModel`, `LuminaryCode` | the program: its state and steps; the code |
| `LuminaryStorage`, `LuminaryCommands`, `LuminaryModes`, `LuminaryLamp` | saving and restarting; the commands; the mode over runs; the lamp in every mode |
| `LuminarySchedule`, `LuminaryUplinks`, `LuminaryEnergy`, `LuminaryRuns` | delays and when uplinks are due; answers and reports; energy; all runs |

## What the code does that its documentation does not say

- The ROM table for CRC-16/IBM (`mbed-os/drivers/source/TableCRC.cpp:86-108`) lists 252 words for
  256 entries, so the last four are 0 instead of 0x0208, 0x820D, 0x8207 and 0x0202. Its default
  object gives a wrong checksum for the single byte 0x3F (`RomChecksums.IbmExample`).
  `RomChecksums.IbmChecksum` says exactly for which messages the checksum is right; some of them
  miss several entries (`RomChecksums.MissesCancel`).
- The constructor picks a ROM table by the polynomial alone, and the loop reads it with the entry
  size of the object's width. It is right at the width in the polynomial's name, CRC-16/IBM
  excepted, at width 9 for the polynomial of CCITT-16, at width 22 for that of ANSI-32, and for the
  reversed polynomial at every width of its own loop; at every other width from 8 on some message
  gets a wrong checksum (`RomTables.ConstructedExact`, `RomChecksums.ConstructedChecksums`,
  `RomChecksums.OtherWidthExample`).
- For the reversed CRC-32 polynomial at widths 17 to 31 the checksum of a message depends on how it
  is divided into chunks; even an empty chunk can be seen (`CrcChunks.ChunkingInvisible`,
  `CrcChunks.EmptyChunkSeen`).
- The average of photocell samples need not lie between them: ten samples of 1 average to the next
  float above 1 (`PhotoCell.TenOnes`, `PhotoCell.StaysWithinExactly`).
- The demonstration takes nine calls for its cycle, not the eight minutes that the documentation
  gives: in floats the fourth step down ends a little above 0.2 (`DimmingDemo.Wave`). A step takes a
  minute only if the loop delay is at least 70 seconds; at the factory value of 30 it takes at most
  40 seconds (`LuminaryLamp.DemoMinute`).
- A manual level of 53 or 59 percent is saved, and reported, as 52 or 58: the float times 100 is a
  little less and is truncated (`LuminaryStorage.LevelRestarted`, `LuminaryEnergy.MessageTellsDimming`).
- A saved curve or time mode is lost when a command that asks for a save comes before the clock is
  right, and only then (`LuminaryModes.SavedModeSurvives`, `LuminaryModes.LostRun`).
- A node without the clock is not kept in a safe mode: a command that asks for a clock mode is obeyed
  at once (`LuminaryModes.UnsyncedNode`).
- A one-shot LED cycle of 256 or more intervals never ends (`LedHandler.OneShotEnds`).
- Switching by time stays dark from the on time until midnight when the off time comes before the
  on time (`OnOffByTime.LitOfDay`); which of the bytes that command O can store give a light that is right
  all day is decided by `OnOffByTime.RightAllDay`.
- A loop delay of 65526 or more can overflow the jittered delay to 0; a pending bypass is then not
  consumed in that turn (`LuminarySchedule.BypassConsumed`).
- Energy is lost when a successful uplink finds the counter at 65536 or more
  (`LuminaryEnergy.EnergyConserved`).
- If the version bytes cannot be read, a first start uses the EEPROM unchecked
  (`LuminaryRuns.StartSettings`).

## Model

| member | source | states |
|---|---|---|
| `MbedCrc.Crc.ReflectBytes` | mbed-os/drivers/MbedCRC.h:403-418 | a data byte comes out with its eight bits mirrored, or untouched when reflection is off |
| `MbedCrc.Crc.ReflectRemainder` | mbed-os/drivers/MbedCRC.h:380-397 | the same for the remainder over its width, or over eight bits below width 8 |
| `MbedCrc.Crc.ReflectLoop` | mbed-os/drivers/MbedCRC.h:384-393 | the bit loop computes the recursively defined mirror image of a word |
| `MbedCrc.Crc.DivideByte` | mbed-os/drivers/MbedCRC.h:448-457 | eight turns of shift and conditional xor on an unmasked 32-bit word divide by the message byte that was placed at the top of the register |
| `MbedCrc.Crc.SerialByte` | mbed-os/drivers/MbedCRC.h:436-444 | the loop for widths below 8 divides by the bits of the byte, taken one by one from its top |
| `MbedCrc.Crc.BitwiseComputePartial` | mbed-os/drivers/MbedCRC.h:427-462 | the word handed back stands for the ideal register fed with every message bit, although it is masked only once per call |
| `MbedCrc.Crc.RightTurns` | mbed-os/drivers/MbedCRC.h:493-497 | the two nibble look-ups of the right-shifting loop are eight division steps on the mirror image of the register |
| `MbedCrc.Crc.TableComputePartial` | mbed-os/drivers/MbedCRC.h:471-507 | all four table loops compute the run of table turns, for whatever 256 entries a byte table holds, cut by the mask at the end |
| `MbedCrc.Crc.ComputePartialStart` | mbed-os/drivers/MbedCRC.h:241-262 | the first register is the initial value |
| `MbedCrc.Crc.ComputePartial` | mbed-os/drivers/MbedCRC.h:206-229 | one chunk moves the register as the mode of the object says; what the mask cuts off is stated for the reversed CRC-32 polynomial at widths 17 to 31 too |
| `MbedCrc.Crc.ComputePartialStop` | mbed-os/drivers/MbedCRC.h:273-296 | what is delivered is a function of the ideal register alone: alignment below width 8, reflection, final xor and mask; ChecksumIsRemainder and FinalXorApplied say which |
| `MbedCrc.Crc.Compute` | mbed-os/drivers/MbedCRC.h:159-183 | start, one chunk and stop deliver the checksum of the buffer |
| `MbedCrc.Crc.ComputeInParts` | mbed-os/drivers/MbedCRC.h:206-296 | the delivered value for any number of chunks, empty ones included: the checksum of the whole message in every mode, except where the mask drops bits that the loop keeps |
| `MbedCrc.Crc.RanConcat` | mbed-os/drivers/MbedCRC.h:206-229 | the register after two chunks is the register after their concatenation |
| `MbedCrc.Crc.TurnExact` | mbed-os/drivers/MbedCRC.h:479-505 | a turn of a byte-table loop is eight division steps if and only if the entry looked up, in the bits that the register holds, is the remainder it stands for |
| `MbedCrc.Crc.RanIsFed` | mbed-os/drivers/MbedCRC.h:471-507 | with a table right in these bits the table loops leave the ideal register after every message |
| `Mirroring.MirroredBitsAt` | mbed-os/drivers/MbedCRC.h:403-418 | the bits of a mirrored number, most significant first, are the bits of the number, least significant first |
| `Mirroring.MirrorTwice` | mbed-os/drivers/MbedCRC.h:380-397 | mirroring twice gives back the low bits |
| `CrcRegister.RegisterIsRemainder` | mbed-os/drivers/MbedCRC.h:446-461 | the register is the one and only remainder of init times x^n plus M times x^width by x^width plus the polynomial over GF(2) |
| `CrcRegister.RegisterConcat` | mbed-os/drivers/MbedCRC.h:446-461 | feeding two bit strings one after the other is feeding their concatenation |
| `CrcRegister.RegisterByTable` | mbed-os/drivers/MbedCRC.h:500-503 | feeding k bits at once through a table of k-bit remainders |
| `CrcRegister.RegisterInjective` | mbed-os/drivers/MbedCRC.h:446-461 | with a constant term in the divisor every run of division steps can be undone |
| `CrcRegister.LongerBurstMissed` | mbed-os/drivers/MbedCRC.h:446-461 | the burst bound is sharp: for every message and place there is a change within width + 1 bits that no register sees |
| `CrcSteps.RightTableStepMirrors` | mbed-os/drivers/MbedCRC.h:493-497 | a right-shifting table step is the mirror image of feeding the mirrored bits to the register |
| `CrcTheorems.ChecksumIsRemainder` | mbed-os/drivers/MbedCRC.h:241-296 | for widths 8 to 32, and below in table mode, in every mode that keeps its whole register, with any reflections and any final xor: a number is the remainder of the message polynomial if and only if the checksum is that number, mirrored over the width if so asked, with the final xor |
| `CrcTheorems.NarrowChecksum` | mbed-os/drivers/MbedCRC.h:434-445 | below width 8 the bitwise loop divides by x^7 plus the polynomial whatever the width, and delivers the low bits left aligned in a byte, mirrored if so asked, with the final xor |
| `CrcTheorems.FinalXorApplied` | mbed-os/drivers/MbedCRC.h:284-293 | in every mode and at every width the checksum is the one without a final xor, combined with the low bits of the final xor |
| `CrcTheorems.EmptyMessage` | mbed-os/drivers/MbedCRC.h:159-183 | the checksum of an empty message is the initial value, mirrored if so asked, with the final xor |
| `CrcTheorems.EmptyIsZero` | mbed-os/drivers/source/MbedCRC.cpp:27-41 | for both default CRC-32 objects, and all others of width 32 that start from all ones and end with them, that is 0 |
| `CrcTheorems.TableModeAgrees` | mbed-os/drivers/MbedCRC.h:471-507 | a table right in the bits that the register holds changes no checksum, for every polynomial, width from 8 on, initial value, reflection and final xor |
| `CrcTheorems.WidthSevenAgrees` | mbed-os/drivers/MbedCRC.h:285-293 | at width 7 the two modes agree on every message if and only if the initial value of the table mode is that of the bitwise mode moved up one bit |
| `CrcTheorems.RightShiftingAgrees` | mbed-os/drivers/MbedCRC.h:288-293 | the right-shifting loop, stopped without reflection, delivers the low bits, as many as the width says, of what the bitwise loop of width 32 delivers for the mirrored polynomial and initial value with every reflection switched on; all of it at width 32 |
| `CrcTheorems.BurstDetected` | mbed-os/drivers/MbedCRC.h:446-461 | with a constant term in the divisor, messages of equal length that differ only within width consecutive bits, in processing order, never share a checksum |
| `CrcTheorems.TrailerVerifies` | mbed-os/drivers/MbedCRC.h:159-183 | for every object of whole bytes that mirrors the remainder if and only if it mirrors the bytes: a message followed by its checksum, least significant byte first where bytes are mirrored, has the same checksum whatever the message, 0 without a final xor; with an odd polynomial no other trailer gives that |
| `MbedCrc.Crc.MaskHarmless` | mbed-os/drivers/MbedCRC.h:493-505 | the mask at the end of a chunk leaves every register of the right-shifting loop alone if and only if the width is 32 |
| `CrcChunks.ChunkingInvisible` | mbed-os/drivers/MbedCRC.h:206-296 | every division of every message into chunks gives the checksum of the message if and only if the object is not one for the reversed CRC-32 polynomial at a width of 17 to 31 |
| `CrcChunks.EmptyChunkSeen` | mbed-os/drivers/MbedCRC.h:493-505 | for such an object an empty chunk before two bytes changes their checksum if and only if the initial value has a bit above the width |
| `CrcChunks.OnesExample` | mbed-os/drivers/MbedCRC.h:493-505 | with an initial value of all ones it does, at each of these widths |
| `TableAlgebra.EntryAdds` | mbed-os/drivers/source/TableCRC.cpp:23-143 | entries of a remainder table add as their indices do |
| `TableAlgebra.Built` | mbed-os/drivers/source/TableCRC.cpp:23-143 | a table of 256 words is right once its first entry is the polynomial, each entry at a power of two is the double of the one before reduced by the divisor, and all others are sums of these |
| `RomWords.SdHolds` | mbed-os/drivers/source/TableCRC.cpp:23-40 | all 256 entries of the 7-bit SD table are the remainders they stand for, left aligned in a byte |
| `RomWords.Ccitt8Holds` | mbed-os/drivers/source/TableCRC.cpp:42-59 | all 256 entries of the 8-bit CCITT table are right |
| `RomWords.Ccitt16Holds` | mbed-os/drivers/source/TableCRC.cpp:61-84 | all 256 entries of the 16-bit CCITT table are right |
| `RomWords.AnsiHolds` | mbed-os/drivers/source/TableCRC.cpp:110-143 | all 256 entries of the 32-bit ANSI table are right |
| `RomWords.RevHolds` | mbed-os/drivers/source/TableCRC.cpp:145-150 | all 16 entries for the right-shifting loop are four right-shifting steps of their index |
| `RomWords.IbmEntries` | mbed-os/drivers/source/TableCRC.cpp:86-108 | the 16-bit IBM table lists 252 words: these are right, and the four after them are 0 |
| `RomTables.ConstructedExact` | mbed-os/drivers/MbedCRC.h:512-557 | whatever the width of an object, and whatever bytes follow the table in ROM, the table as its loop reads it is right, in the bits that the register holds, if and only if there is none, or the width is the one in the polynomial's name and the polynomial is not CRC-16/IBM, or it is 9 for CCITT-16, 22 for ANSI-32 or above 16 for the reversed polynomial |
| `ShortTables.ServesExactly` | mbed-os/drivers/MbedCRC.h:498-503 | all entries of a table, cut to a narrower register, are the remainders for the cut polynomial if and only if the entries of the powers of two but the last shift the same bit out of either register |
| `RomChecksums.ConstructedChecksums` | mbed-os/drivers/MbedCRC.h:471-557 | as constructed, in the byte loops at every width from 8 on, the checksums of all messages are those of the bitwise mode if and only if there is no table or the width is one of these |
| `WrongEntries.EveryChecksum` | mbed-os/drivers/MbedCRC.h:479-503 | for any table: the checksums of all messages are those of the bitwise mode if and only if every entry is right in the bits that the register holds |
| `RomChecksums.OtherWidthExample` | mbed-os/drivers/MbedCRC.h:482-491 | the polynomial of CRC-8 at width 16, which reads the byte table two entries at a time, gives a wrong checksum for the single byte 0 |
| `WrongEntries.ErrorDecides` | mbed-os/drivers/MbedCRC.h:471-507 | for any table and every message: the checksum is right if and only if the error is 0, which is computed from the ideal register and the defects of the entries looked up |
| `WrongEntries.OneWrongLookUp` | mbed-os/drivers/MbedCRC.h:488-491 | for any table and an odd polynomial, a message with at most one wrong look-up, wherever it is, gets the right checksum if and only if it has none |
| `WrongEntries.MissedDecide` | mbed-os/drivers/MbedCRC.h:471-507 | a table with 0 in place of its last entries: over every message the checksum is right if and only if the string of the indexes that the message misses, read off the ideal register, is divisible by the divisor |
| `WrongEntries.MissingMessage` | mbed-os/drivers/MbedCRC.h:479-503 | every string of missing indexes is missed by some message |
| `RomChecksums.IbmChecksum` | mbed-os/drivers/source/TableCRC.cpp:86-108 | the condition of MissedDecide for every CRC-16/IBM object and every message |
| `RomChecksums.MissesCancel` | mbed-os/drivers/source/TableCRC.cpp:86-108 | every CRC-16/IBM object has a message of seven bytes that misses five entries and gets the right checksum |
| `RomChecksums.IbmFollowsIdeal` | mbed-os/drivers/source/TableCRC.cpp:86-108 | CRC-16/IBM: the register is the ideal one after every prefix of a message if and only if no byte of it looks at index 252 or above, and then the checksum is right |
| `RomChecksums.IbmExample` | mbed-os/drivers/source/MbedCRC.cpp:43-49 | the default CRC-16/IBM object gives a wrong checksum for the single byte 0x3F |
| `EventHandles.ConstructedKeeps` | mbed-os/events/Event.h:57-76 | construction keeps the count of every block equal to its live handles |
| `EventHandles.CopiedKeeps` | mbed-os/events/Event.h:80-87 | a copy adds exactly one to a count that cannot wrap, because handles need addresses |
| `EventHandles.HoldersFit` | mbed-os/events/Event.h:207-208 | more handles than an unsigned count can hold do not fit into the address space |
| `EventHandles.DestroyedKeeps` | mbed-os/events/Event.h:103-112 | the functor is destroyed and the block released exactly when the last handle on it dies, and otherwise nothing is |
| `EventHandles.AssignedKeeps` | mbed-os/events/Event.h:91-99 | assignment shares the block assigned from; between two handles on one block it changes nothing and frees nothing |
| `EventHandles.StepKeeps` | mbed-os/events/Event.h:57-112 | every operation on live handles is defined, that is, uses no released memory, and keeps the invariant |
| `EventHandles.EveryRun` | mbed-os/events/Event.h:57-112 | over every sequence of operations: counts equal live handles, no released memory is used, every allocation is destroyed and released once, and nothing is left when no handle is |
| `EventHandles.CopyThenDestroy` | mbed-os/events/Event.h:80-112 | copying a handle and destroying the copy gives back the same memory |
| `EventHandles.EventMemory.ConstructEvent` | mbed-os/events/Event.h:57-76 | the constructor performs the specified step on memory, null allocation included |
| `EventHandles.EventMemory.CopyEvent` | mbed-os/events/Event.h:80-87 | the copy constructor performs the specified step |
| `EventHandles.EventMemory.DestroyEvent` | mbed-os/events/Event.h:103-112 | the destructor performs the specified step |
| `EventHandles.EventMemory.AssignEvent` | mbed-os/events/Event.h:91-99 | the assignment operator, by destruction and copying in place, performs the specified step |
| `EventHandles.EventMemory.DelayEvent` | mbed-os/events/Event.h:118-123 | a delay goes to the shared block, if there is one |
| `EventHandles.EventMemory.PeriodEvent` | mbed-os/events/Event.h:129-134 | so does a period |
| `EventHandles.EventMemory.PostEvent` | mbed-os/events/Event.h:149-157 | post hands the queue a context with the functor, the delay and the period of the shared block and the arguments, stores the id in the block and returns it; a null handle posts nothing, and without memory the id is 0 |
| `EventHandles.EventMemory.PostContext` | mbed-os/events/Event.h:223-236 | the context posted, with its copy of the functor and the destructor registered for it, and its id |
| `EventHandles.EventMemory.CancelEvent` | mbed-os/events/Event.h:199-204 | cancel hands the queue the id in the shared block, if there is one |
| `EventHandles.FunctorKept` | mbed-os/events/Event.h:57-157 | no operation on any handle changes the functor of an allocated block, so every post calls the one that the block was constructed with |
| `EventHistory.FieldIsLastSet` | mbed-os/events/Event.h:57-157 | over every run of operations, delay, period, id and functor of an allocated block are what the last operation that sets them gave, through whichever handle it was made |
| `EventHistory.SetOnce` | mbed-os/events/Event.h:63-76 | for every allocated block and each of these there is such an operation, if only the construction |
| `EventHistory.PostedAsSet` | mbed-os/events/Event.h:223-236 | a post through any handle hands the queue the delay of the last delay(ms), 0 if there was none, and the period of the last period(ms), -1 if there was none, with the functor of the construction and the arguments of the post |
| `EventHistory.CancelsLastPost` | mbed-os/events/Event.h:186-204 | cancel names the last post made through any handle on the block, by the id that it returned, or 0 |
| `LedHandler.EveryRun` | lib/LedHandler/LedHandler.cpp:23-99 | in every run from power-up a timer is armed exactly in Cicle mode, with the interval at the index, and the LED is on exactly at the even ones |
| `LedHandler.RepeatingCycle` | lib/LedHandler/LedHandler.cpp:69-99 | after k expiries a repeating cycle of n intervals is at k modulo n (modulo 256 from 256 intervals on) |
| `LedHandler.OneShotCycle` | lib/LedHandler/LedHandler.cpp:76-82 | a one-shot cycle of 2 to 255 intervals walks through all of them and ends, off and manual, after exactly n expiries |
| `LedHandler.OneShotEnds` | lib/LedHandler/LedHandler.cpp:73-87 | a one-shot cycle ends at all if and only if it has fewer than 256 intervals, because the byte index wraps |
| `LedHandler.SetByHand` | lib/LedHandler/LedHandler.cpp:23-48 | an LED that was switched or toggled by hand shows what it was switched to, inverted by every toggle since, with the timer off, whatever late expiries and refused cycles come |
| `LedHandler.Handler.SetManual` | lib/LedHandler/LedHandler.cpp:23-31 | switching by hand disarms the timer |
| `LedHandler.Handler.Toggle` | lib/LedHandler/LedHandler.cpp:43-48 | toggling inverts the pin and disarms the timer |
| `LedHandler.Handler.SetCicle` | lib/LedHandler/LedHandler.cpp:52-67 | a cycle of fewer than two intervals is refused; any other starts on, at interval 0, with the timer armed |
| `LedHandler.Handler.CicleCallback` | lib/LedHandler/LedHandler.cpp:69-99 | the callback performs the specified step |
| `PhotoCell.LastDecisiveReading` | lib/PhotoCell/PhotoCell.cpp:56-86 | over any sequence of readings and threshold changes the output is decided by the last reading outside the band then in force |
| `PhotoCell.NoDecisiveReading` | lib/PhotoCell/PhotoCell.cpp:56-86 | without such a reading the output stays what it was, off for a new photocell |
| `PhotoCell.BandKept` | lib/PhotoCell/PhotoCell.cpp:11-22 | the on threshold never exceeds the off threshold |
| `PhotoCell.BandInForce` | lib/PhotoCell/PhotoCell.cpp:11-22 | the band in force is that of the last change of thresholds: on as given, and off the larger of the two |
| `PhotoCell.AverageBetween` | lib/PhotoCell/PhotoCell.cpp:31-43 | in binary32 an average lies between those of as many copies of the smallest and of the largest sample |
| `PhotoCell.StaysWithinExactly` | lib/PhotoCell/PhotoCell.cpp:31-43 | the average of n samples lies between the smallest and the largest value that they may have, whatever they are, if and only if it does so for n copies of either |
| `PhotoCell.TenOnes` | lib/PhotoCell/PhotoCell.cpp:58 | ten samples of 1 average to the next float above 1 |
| `PhotoCell.AverageNear` | lib/PhotoCell/PhotoCell.cpp:31-43 | an average leaves the range of its samples by at most one unit in the last place for each sample |
| `PhotoCell.ReadingNear` | lib/PhotoCell/PhotoCell.cpp:31-43 | so by at most n times 2^-23 for n of 1 to 255 samples between 0 and 1 |
| `PhotoCell.Cell.Read` | lib/PhotoCell/PhotoCell.cpp:31-43 | the loop returns the average of the samples, with every quotient and sum rounded to a float, and stores it |
| `PhotoCell.Cell.ShouldBeOn` | lib/PhotoCell/PhotoCell.cpp:56-86 | the hysteresis step on the rounded average of ten samples |
| `PhotoCell.Cell.SetThreshold` | lib/PhotoCell/PhotoCell.cpp:11-22 | the thresholds, with the off threshold raised to the on threshold when below it |
| `LuminaryModel.ThresholdsAreFloats` | src/luminary.cpp:53 | the thresholds of the program are the floats nearest to 0.65 and 0.7 |
| `DimmingCurves.CurvesAsDocumented` | lib/DimmingCurves/DimmingCurves.cpp:5-11 | the packed static curves say for every hour what the table of the documentation says |
| `DimmingCurves.PackedReadBack` | lib/DimmingCurves/DimmingCurves.cpp:51-62 | a schedule of 24 nibbles packed two hours to a byte is read back hour by hour |
| `DimmingCurves.Curves.SelectCurve` | lib/DimmingCurves/DimmingCurves.cpp:20-31 | an index past the custom curve selects curve 0 |
| `DimmingCurves.Curves.GetDimming` | lib/DimmingCurves/DimmingCurves.cpp:33-63 | the level of an hour in the static or the custom curve; the byte looked up is always assigned |
| `OnOffByTime.LitExactly` | lib/OnOffByTime/OnOffByTime.cpp:32-52 | for any four bytes, times of the day or not, the light agrees with the interval round the clock if and only if the hour next comes after the on time on the day that the code looks at, or comes after the off time |
| `OnOffByTime.LitOfDay` | lib/OnOffByTime/OnOffByTime.cpp:32-52 | between two times of the day the light agrees with the interval from the on time to the off time round the clock if and only if it is not the case that off comes before on and it is past the on time |
| `OnOffByTime.RightAllDay` | lib/OnOffByTime/OnOffByTime.cpp:32-52 | for any four bytes the light is right at every time of the day if and only if the two times are in the right order on one day, or on is midnight, or on is on the second day and off on the first, or off is more than a day before on |
| `OnOffByTime.EverLit` | lib/OnOffByTime/OnOffByTime.cpp:36-50 | for any four bytes, times of the day or not, there is a time of day at which the light is on if and only if the stated bounds hold |
| `OnOffByTime.DarkAtEight` | lib/OnOffByTime/OnOffByTime.cpp:40-50 | with the factory times 18:00 and 06:00 the light is off at 20:00 |
| `OnOffByTime.Clock.GetDimming` | lib/OnOffByTime/OnOffByTime.cpp:32-52 | the minutes of the day computed on 16-bit words give the specified level |
| `DimmingDemo.Wave` | lib/DimmingDemo/DimmingDemo.cpp:22-42 | in binary32 arithmetic the level after n calls is at place n modulo 9 of a cycle, because the fourth value on the way down is a little more than the double 0.2 |
| `DimmingDemo.NineCalls` | Readme.md:71-73 | the demonstration is back at the start exactly after every ninth call, not every eighth |
| `DimmingDemo.NextKeeps` | lib/DimmingDemo/DimmingDemo.cpp:22-42 | from any float between 0.2 and 1, a call stays there |
| `DimmingDemo.FifthIsDouble` | lib/DimmingDemo/DimmingDemo.h:17 | the step and the bounds of the model are the double nearest to 0.2 and that double stored in a float, which is the float nearest to 0.2 |
| `DimmingDemo.Demonstration.GetDimming` | lib/DimmingDemo/DimmingDemo.cpp:22-42 | one step, with the sum or difference in double and the result stored in a float |
| `Binary32.PercentHundredths` | src/luminary.cpp:103 | of the hundredths 0 to 100, divided, multiplied back and truncated in binary32, exactly 53 and 59 lose one |
| `LightOutput.DutyRange` | lib/LightOutput/LightOutput.cpp:26-29 | the float product with 0.95f is at most 0.95 and is 0 exactly for level 0 |
| `LightOutput.DutyFollowsLevel` | lib/LightOutput/LightOutput.cpp:14-30 | for every level from 0 to 1 the duty cycle written is 95/100 of the level, up to 0.7 units in the last place of the level |
| `LightOutput.DutyOrdered` | lib/LightOutput/LightOutput.cpp:14-30 | a higher level has no lower a duty cycle |
| `LightOutput.HundredthsVisible` | lib/LightOutput/LightOutput.cpp:14-30 | different hundredths have different duty cycles, in their order |
| `LightOutput.FullDuty` | lib/LightOutput/LightOutput.cpp:5-30 | full light has exactly the float 0.95 |
| `LightOutput.Driven` | lib/LightOutput/LightOutput.cpp:14-30 | for every level asked for: the clamped level, a duty cycle of at most 0.95, and the relay on exactly when the duty cycle, and the level, is positive |
| `LightOutput.Output.SetOutput` | lib/LightOutput/LightOutput.cpp:14-30 | the outputs written are those of Driven |
| `LightController.LevelRange` | lib/LightController/LightController.cpp:66-91 | every mode gives a level in 0 to 1, except that a custom curve may ask for up to 1.5 |
| `LightController.Controller.GetDimming` | lib/LightController/LightController.cpp:66-91 | the dispatch over the modes; only the photocell and the demonstration are changed by being asked |
| `LightController.Controller.SetManualDimming` | lib/LightController/LightController.cpp:56-64 | the manual level is clamped to 0 and 1 |
| `MacEvents.DeliveredExactly` | libxDot-mbed5/mDotEvent.h:157-323 | over any run of MAC events a packet is handed to the receive callback during an event if and only if the event notifies and the packet is the latest received, non-empty, and not followed by TxDone or RxError |
| `MacEvents.RedeliveryHarmless` | src/EventSlot.cpp:10-18 | handing stale packets over again changes nothing for any receiver whose commands are idempotent |
| `MacRecord.LastTold` | libxDot-mbed5/mDotEvent.h:157-323 | over any run of MAC events every part of the record (signal, packet, slot, link check, join, retries, datarate, status) says what the last event said that has something to say about it, where TxDone and RxError clear it; signal-to-noise ratio and margin are cut to a byte |
| `MacRecord.NeverTold` | libxDot-mbed5/mDotEvent.h:86-106 | a part about which no event had anything to say is as at the start |
| `MacRecord.SeenSinceTxDone` | libxDot-mbed5/mDotEvent.h:157-301 | the flags for a packet, an acknowledgement and a link check are set if and only if one has come since the last TxDone; RxError does not make them forgotten |
| `MacRecord.AckTold` | libxDot-mbed5/mDotEvent.h:225-247 | the record shows an acknowledgement if and only if the last packet, or one before it since the last TxDone, carried one |
| `MacEvents.EventSlot.OnTxDone` | libxDot-mbed5/mDotEvent.h:157-178 | clears the record, so nothing is delivered |
| `MacEvents.EventSlot.OnTxTimeout` | libxDot-mbed5/mDotEvent.h:184-190 | keeps the packet, which is delivered again |
| `MacEvents.EventSlot.OnPacketRx` | libxDot-mbed5/mDotEvent.h:218-251 | stores the packet and delivers it if it is not empty |
| `MacEvents.EventSlot.OnNetworkLinkCheck` | libxDot-mbed5/mDotEvent.h:287-301 | keeps the packet, which is delivered again |
| `MacEvents.EventSlot.OnRxTimeout` | libxDot-mbed5/mDotEvent.h:303-311 | keeps the packet, which is delivered again |
| `MacEvents.EventSlot.OnRxError` | libxDot-mbed5/mDotEvent.h:313-323 | clears the record, so nothing is delivered |
| `MacEvents.EventSlot.OnJoinAccept` | libxDot-mbed5/mDotEvent.h:192-200 | keeps the packet, which is delivered again |
| `MacEvents.EventSlot.OnJoinFailed` | libxDot-mbed5/mDotEvent.h:202-210 | keeps the packet, which is delivered again |
| `MacEvents.EventSlot.OnMissedAck` | libxDot-mbed5/mDotEvent.h:212-216 | counts the retries and notifies nobody |
| `LuminaryCode.Luminary.SaveSmartcellConfig` | src/luminary.cpp:87-116 | the ten bytes and the custom curve written in place make the EEPROM that of the specified save |
| `LuminaryCode.Luminary.PayloadParser` | src/luminary.cpp:118-269 | every command, with its length check, does to the globals and the components what the specification says; unknown ones only cut the delay short |
| `LuminaryCode.Luminary.CheckVersion` | src/luminary.cpp:372-410 | the factory values are written if and only if the version was read and differs |
| `LuminaryCode.Luminary.RestoreConfig` | src/luminary.cpp:412-455 | each parameter is restored if its read succeeds |
| `LuminaryCode.Luminary.constructor` | src/luminary.cpp:365-484 | start-up, from the variables before main to the loop, on the EEPROM found |
| `LuminaryCode.Luminary.Iterate` | src/luminary.cpp:486-629 | one turn of the loop up to the delay: save, first sending part, energy, dimming, report and count |
| `LuminaryCode.Luminary.SendLightStatus` | src/SmartCell_util.cpp:62-89 | the seven bytes of the status message, with the level as the truncated percentage |
| `LuminaryCode.Luminary.SendCurrentTime` | src/SmartCell_util.cpp:114-138 | the five bytes of the time message |
| `LuminaryCode.Luminary.SendSmartCellConfig` | src/SmartCell_util.cpp:91-112 | the six bytes of the settings message |
| `LuminaryCode.Luminary.Prepare` | src/luminary.cpp:495-549 | the first sending part: join, the answers to H and E, and the recovery of the mode between them |
| `LuminaryCode.Luminary.Delay` | src/luminary.cpp:636-659 | the seconds of the delay with the packets that arrive in each, the bypass and the demonstration, and how many seconds it lasts |
| `LuminaryCode.Luminary.LoopTurn` | src/luminary.cpp:486-660 | a whole turn of the endless loop performs the specified step, and returns the answers to requests, the status message if and only if one got through, and the seconds of the delay |
| `LuminaryStorage.SaveThenRestart` | src/luminary.cpp:87-116 | saving and restarting brings back every setting, except that the curve and time modes come up as photocell and that the manual level is what its saved percentage makes of it |
| `LuminaryStorage.SaveThenAnyRestart` | src/luminary.cpp:412-455 | whatever reads fail: each setting whose read succeeds is the saved one, and each other one has its value from before main |
| `LuminaryStorage.LevelRestarted` | src/luminary.cpp:422-424 | the manual level at n hundredths survives if and only if n is neither 53 nor 59, which come back as 52 and 58 |
| `LuminaryStorage.SettingsSurvive` | src/luminary.cpp:412-455 | so all settings but a clock mode survive if and only if the manual level is not at 53 or 59 hundredths |
| `LuminaryStorage.FiftyThree` | src/luminary.cpp:152-161 | command D 53, saved, comes back as 52 after a restart |
| `LuminaryStorage.SaveTouchesParametersOnly` | config/version_config.h:17-31 | a save writes the parameter bytes only, so the version bytes are as they were |
| `LuminaryStorage.ModeAfter` | src/luminary.cpp:531-538 | as long as nothing is saved, over any number of turns the mode is that of the start until the first uplink turn with the clock right, and the saved one from then on |
| `LuminaryStorage.ModeRecovered` | src/luminary.cpp:531-538 | a saved mode is back after the first turn that follows a restart, if the clock is right then, and stays; the other settings are as restored |
| `LuminaryStorage.ParsedTwice` | src/luminary.cpp:126-266 | every command is idempotent on the settings and on the requests it leaves |
| `LuminaryStorage.StalePacketsHarmless` | src/luminary.cpp:118-269 | over any run of MAC events the luminary ends as if every non-empty packet had been handed over once |
| `LuminaryStorage.ScheduleFollowed` | src/luminary.cpp:141-192 | a schedule sent as J and K in either order, then C with index 3, makes the curve look-up give its level for every hour |
| `LuminaryStorage.ScheduleOnLamp` | src/luminary.cpp:490-561 | the turn after these commands, through its save and its mode recovery, drives the lamp with the level of the schedule for the hour of the clock |
| `LuminaryCommands.CommandObeyed` | src/luminary.cpp:118-269 | a packet that begins with the packet of a command, numbers most significant byte first, does what the command says on settings and requests, whatever follows in it |
| `LuminaryCommands.OthersIgnored` | src/luminary.cpp:118-269 | a packet that begins with no command changes nothing and cuts the delay short |
| `LuminaryCommands.NextTurnKeeps` | src/luminary.cpp:486-538 | the next turn saves what a command has set, and no recovery of the mode undoes it |
| `LuminaryCommands.RestartKeepsCommand` | src/luminary.cpp:412-455 | after that turn a restart brings it back, but for a mode that waits for the clock and a level that loses a percent |
| `LuminaryCommands.LoopEveryRoundTrip` | src/luminary.cpp:248-262 | the packet of T with any d from 30 to 65535, most significant byte first, and any n makes the loop delay d and the loops between reports n and touches no other setting: when heard, in the next turn, and after a restart |
| `LuminaryCommands.TimesRoundTrip` | src/luminary.cpp:225-234 | the same for the four bytes of O |
| `LuminaryCommands.TimestampRoundTrip` | src/luminary.cpp:128-139 | the four bytes of A set the clock to the timestamp, and no setting |
| `LuminaryLamp.PhotocellLamp` | lib/LightController/LightController.cpp:75-77 | over any run of turns, after one in photocell mode the lamp is fully on if the last average outside 0.65 to 0.7, measured in this turn or an earlier one in photocell mode, was below 0.65, and off if it was above 0.7; as the photocell was at first if there was none |
| `LuminaryLamp.StartsDark` | src/luminary.cpp:53-64 | after a start the photocell is off, its thresholds are the floats 0.65 and 0.7, and the demonstration is at its beginning |
| `LuminaryLamp.ManualLamp` | lib/LightController/LightController.cpp:70-73 | in manual mode, and in a mode that is none, the lamp has the manual level |
| `LuminaryLamp.DimOnLamp` | src/luminary.cpp:152-161 | the turn after D with p percent shows p hundredths, at most 100, through its save and mode recovery |
| `LuminaryLamp.TimesOnLamp` | src/luminary.cpp:225-234 | the turn after O, whatever its four bytes, has the lamp fully on if the clock is between the two times, and off if not, as the code compares them |
| `LuminaryLamp.CurveOnLamp` | src/luminary.cpp:141-150 | the turn after C shows the level that the documentation gives for curve and hour; an index above 3 stands for the first curve |
| `LuminaryLamp.ClockReads` | src/SmartCell_util.cpp:36-47 | the hour and the minute are those of the day for every time composed of days, hours, minutes and seconds |
| `LuminaryLamp.ClockRight` | src/SmartCell_util.cpp:5-8 | the clock counts as right if and only if it is past the start of 2018 |
| `LuminaryLamp.DemoLamp` | lib/DimmingDemo/DimmingDemo.cpp:22-42 | over any run of turns from a start, the k-th turn in the demonstration shows place k modulo 9 of its cycle, whatever turns come in between |
| `LuminaryLamp.DemoGoesOn` | src/luminary.cpp:649-657 | the demonstration goes on from turn to turn, each an uplink turn, and shows each step for 60 seconds, or for the jittered loop delay if that is shorter |
| `LuminaryLamp.DemoMinute` | Readme.md:71-73 | so a step takes the documented minute, whatever the jitter, if and only if the loop delay is at least 70 seconds; at the factory value it takes at most 40 seconds |
| `LuminaryModes.TurnMode` | src/luminary.cpp:490-659 | the mode after a turn, here and in the EEPROM, is that of the last mode command heard in its delay, or else the saved one if the turn recovered it, where a pending save comes first |
| `LuminaryModes.SavedModeSurvives` | src/luminary.cpp:490-538 | over any run whose commands set no mode, a node that started in photocell mode over a saved clock mode is in the saved mode if and only if a turn with the clock right came before any command that asks for a save |
| `LuminaryModes.LostRun` | src/luminary.cpp:428-437 | a saved curve mode that is lost: no clock in the first turn, a T command in its delay; whatever follows, as long as no command sets the mode |
| `LuminaryModes.UnsyncedMode` | src/luminary.cpp:531-538 | as long as no turn recovers the saved mode, the mode is that of the last mode command heard |
| `LuminaryModes.UnsyncedNode` | Readme.md:43 | a started node that never finds its clock right is in a clock mode if and only if the last mode command it heard asked for one |
| `LuminaryModes.StaleBetweenTurns` | src/luminary.cpp:118-269 | a saving command whose packet is handed over again any number of times, with turns in between, changes no setting any more, through saves and mode recoveries |
| `LuminaryModes.StaleBringsUplink` | src/luminary.cpp:638-647 | a packet handed over in a delay, stale or not, cuts it short and makes the next turn an uplink turn |
| `LuminarySchedule.CounterRange` | src/luminary.cpp:623-629 | the uplink counter never wraps and ends each turn between 1 and max(1, loopsToSend) |
| `LuminarySchedule.UplinksEvenlySpaced` | src/luminary.cpp:495-629 | over any run of quiet turns uplinks are exactly max(1, loopsToSend) turns apart |
| `LuminarySchedule.DelayRange` | src/luminary.cpp:636 | for loop delays from 30 to 65525 the jittered delay is from 20 to 65535; it overflows to 0 for one sum only |
| `LuminarySchedule.BypassConsumed` | src/luminary.cpp:638-647 | a pending bypass is consumed in the delay and makes the next turn an uplink turn, except when the delay overflowed to 0 |
| `LuminarySchedule.BypassServed` | src/luminary.cpp:563-567 | a bypass left pending by an earlier turn, or asked for by a change of level, ends the delay of the turn at once and makes the next one an uplink turn; without one the delay goes into its first second |
| `LuminarySchedule.DimmingChangeReported` | src/luminary.cpp:563-567 | after a change of level outside an uplink turn the next turn is an uplink turn if and only if the delay has not overflowed to 0 or the count was up anyway |
| `LuminarySchedule.SilentDelay` | src/luminary.cpp:638-659 | without packets the delay lasts all its seconds, in the demonstration at most 60, after which the next turn is an uplink turn |
| `LuminarySchedule.PacketEndsDelay` | src/luminary.cpp:638-659 | a packet ends the delay with the second in which it comes, and makes the next turn an uplink turn unless that was the last second |
| `LuminarySchedule.LoopsAsCommanded` | src/luminary.cpp:248-262 | after T with d and n, as long as nothing happens, every delay lasts d seconds give or take ten, and uplinks are exactly max(1, n) turns apart |
| `LuminaryEnergy.MessageTellsDimming` | src/SmartCell_util.cpp:77 | the level byte of the message is the percentage, but for 53 and 59 |
| `LuminaryEnergy.EnergyOfTurn` | src/luminary.cpp:553-613 | in one turn the measured energy is reported, lost or kept; less than one unit is kept after a success; nothing is lost if and only if the counter is below 65536 when sent |
| `LuminaryEnergy.EnergyAccounted` | src/luminary.cpp:553-613 | the same over every run with any pattern of failed uplinks, in exact arithmetic |
| `LuminaryEnergy.EnergyConserved` | src/SmartCell_util.cpp:79-81 | in exact arithmetic, over a run the reported values and the residual add up to what was measured if and only if no successful uplink found the 16-bit field too small |
| `LuminaryUplinks.PendingExactly` | src/luminary.cpp:499-545 | over any run a request (E, H or S) is pending if and only if it has been heard and no uplink turn has come since |
| `LuminaryUplinks.AnswersExactly` | src/luminary.cpp:524-545 | an uplink turn with the network joined sends the time if and only if H, and then the settings in force if and only if E, has been heard since the last uplink turn; any other turn sends no answer |
| `LuminaryUplinks.JoinedExactly` | src/luminary.cpp:500-504 | over any run the node is joined if and only if it was at the start or some uplink turn found the network joined |
| `LuminaryUplinks.JoinedFromStart` | src/luminary.cpp:468-473 | from a start: if and only if the join before the loop or in some uplink turn succeeded |
| `LuminaryUplinks.StartsClean` | src/luminary.cpp:62-81 | a start leaves no request, save or bypass pending, no energy and no light, and begins with an uplink turn |
| `LuminaryUplinks.ReportsExactly` | src/luminary.cpp:601-617 | a status report gets through in a turn if and only if it is an uplink turn, the sending succeeds, and the node is joined |
| `LuminaryUplinks.TimeSetByHand` | src/luminary.cpp:128-139 | over any run the clock was last set by hand to what the last A heard carried |
| `LuminaryUplinks.StatusTells` | src/SmartCell_util.cpp:62-89 | the status message tells power and energy below 65536 to the unit, the level in percent but for 53 and 59, and the mode |
| `LuminaryUplinks.ConfigTells` | src/SmartCell_util.cpp:91-112 | the settings message tells mode, level in percent but for 53 and 59, loop delay and loops between reports |
| `LuminaryUplinks.TimeTells` | src/SmartCell_util.cpp:114-138 | the time message tells the low 32 bits of the time in the form in which A carries it |
| `LuminaryRuns.EveryRun` | src/luminary.cpp:118-660 | in every state reachable from an EEPROM of another version: loop delay at least 30, mode 0 to 4, curve index at most 3, manual level in 0 to 1 and a number of hundredths, duty cycle in 0 to 0.95, relay on exactly for a positive level, version matching |
| `LuminaryRuns.FirstStart` | src/luminary.cpp:372-410 | a first start from any other EEPROM establishes all that |
| `LuminaryRuns.FactorySettings` | src/luminary.cpp:372-410 | a first start with every read successful comes up with 30 seconds, 20 loops, photocell, 100 percent, the first curve, 18:00 to 06:00 and a dark custom curve |
| `LuminaryRuns.RestartKeeps` | src/luminary.cpp:412-455 | a restart keeps it, whatever reads fail |
| `LuminaryRuns.StartSettings` | src/luminary.cpp:372-455 | all settings after a start are in range if and only if the factory values were written, or the delay and the mode that were read are |
| `LuminaryRuns.StartDelay` | src/luminary.cpp:412-420 | the loop delay after a start is at least 30 if and only if it was not read, the factory values were written, or the stored value is at least 30 |

## Left out

- The hardware CRC mode, its mutex, and the error returns that belong to it; objects without a
  buffer or output word, which the driver asserts away.
- RomTables.ConstructedExact: the bytes that follow a table in ROM are an input, and entries are
  read least significant byte first, as on the processor of the node.
- LuminaryEnergy.EnergyConserved: the energy counter is an exact real, so the rounding of its float sums
  is not seen. Levels, percentages, the demonstration, the duty cycle and the average of the photocell
  are rounded as floats and doubles are.
- PhotoCell.Cell.Read: samples and thresholds that are infinite or not numbers, and sums above the largest
  float; the analogue input gives values between 0 and 1.
- LuminaryCode.Luminary.SendLightStatus: casts of floats that do not fit, which C++ leaves
  undefined, are taken modulo 65536 for power and energy and modulo 256 for a level.
- EventHandles.EventMemory.PostEvent: the memory and the id that the queue returns are inputs; the
  life of the context once posted, its dispatch, and what the queue does when an id is cancelled are
  not modelled.
- `UserAllocatedEvent`: its single-post flag depends on the dispatcher.
- MacEvents.DeliveredExactly: the record points at the stack's buffer, and the packet delivered again
  is whatever that buffer then holds; it is taken to be unchanged since the packet came. Packets are
  at most 255 bytes, the size of the receive buffer. The server time, beacon and pong callbacks and
  RxDone are one silent event.
- LuminaryModes.StaleBetweenTurns: for commands that ask for a save; the others change no setting.
- LuminaryCode.Luminary.Delay: packets arrive in the seconds of the delay only; a callback in the
  middle of a turn is not modelled.
- Failed EEPROM writes, and loss of power while the factory values are written.
- The passage of time: the clock, the measured energy and the sensor samples are inputs of each
  turn; command A records the time it asks for, and synchronisation with the gateway is an input.
- Joining, logging, sleeping, the LEDs driven by the main loop, and the random start delay. Whether
  the network is joined is an input of each turn.
- CurrentSensor, PulseCounter, ISL29011, the channel plans, the LoRa stack, firmware update over
  the air and the example programs.
