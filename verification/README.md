# MatrixPilot, modelled and proved in Dafny

This project models the parts of the MatrixPilot autopilot that carry real algorithmic state
and proves what they are for. Each part exists twice: as functions and state machines on values,
about which the properties are proved, and as the source has it -- statics turned into the fields
of a class, arrays edited in place, loops -- with every method proved to compute exactly the
function it stands for.

| part | files | what is proved of it |
|---|---|---|
| UDB Logo interpreter | `Logo*.dfy`, `SineTable.dfy` | The index-and-stack machine agrees after every number of instructions with a direct recursive evaluation of nested blocks; exactly which programs stay inside their array and exactly when a block fits the 12-slot stack; interrupt handlers are transparent. |
| Non-volatile storage | `Storage*.dfy`, `DataStorage.dfy` | Exactly when the search for room ends, and what it then gives: the lowest free page range if there is one; completed requests refine a map from handle to bytes over whole runs and reboots. |
| Data services | `Services*.dfy`, `DataServices.dfy` | Save, arbitrary changes, load restores exactly the selected parameters, aliased ones included; start-up gives every block its area, and parameters survive a power cycle. |
| INI store | `Ini*.dfy` | Rewriting a file through the seek-back cache is a one-place edit of its lines; what is put is what is read, every other setting is kept; quoting and number round trips. |
| Flight modes | `ModeSwitch.dfy`, `FlightStates.dfy`, `FlightTable.dfy`, `FlightComputer.dfy` | Autonomous flight if and only if two toggles in time, stated on the polled levels alone; the switch obeyed within 21 heartbeats; control flags determined by the state; start-up order; bounded failsafe response; the return hold. |
| Waypoint uplink | `Waypoint*.dfy` | Every waypoint sent arrives; over all byte streams nothing else makes one ready. |
| Mission protocol | `Mission*.dfy` | In-order prefix under loss, repetition and reordering; ack exactly when complete; a download tells what was uploaded; exact time-outs. |
| Telemetry ring | `RingBuffer.dfy` | FIFO without loss, repetition or overwriting under every interleaving with the transmit interrupt. |
| Throttle filter | `ThrottleFilter.dfy` | Monotone, no overshoot, exact arrival in a bounded number of steps. |

`FixedWidth.dfy` holds the C integer widths, wrap-around and truncating division, `ByteOrder.dfy` numbers as bytes.

## How the source is represented

- **Logo.** `LogoMachine` is the machine as it executes, with the scans and jumps;
  `LogoBlocks` has the block syntax (`Flatten` is the array the macros expand to) and a recursive
  evaluator that spends one unit of a budget per instruction, so that two infinite executions can be
  compared at every instant. Turtle, flag and speed commands are logged with their resolved
  argument and active turtle; `LogoCommands.Replay` says how a log moves the turtles. Sensor values
  are an arbitrary stream; crossing the finish line and reaching the goal are inputs of each update.
- **Storage.** The EEPROM is 65536 bytes; a transfer is started by the service routine and ended by
  its callback. The CRC is an arbitrary function. The scan's look at the slot behind the table
  (`MatrixPilot/data_storage.c:670`) sees an empty entry.
- **INI.** `IniStore` and `IniUpdates` work on lines; `IniFile` and `IniRewriter` work on characters
  and file positions, with `fgets` and the position calls of the glue header, and are proved equal to the former. A file
  consists of newline-terminated lines shorter than the buffer; a missing file is an empty one.
  The flag `cache_flush` returns for an empty cache is arbitrary (`anything`, `stray`, `gap`).
- **Interrupts of the ring.** `isr(k)` is the number of times the transmit interrupt strikes at point
  `k` of a put, every point having its own `k`; results hold for all `isr`.
- **Build options.** Fixed-wing airframe, radio present, no catapult, no fly-by-datalink,
  FAILSAFE_RTL; FAILSAFE_HOLD and both pauses are parameters. Waypoints are dynamic, MAVLink on.
- `mavlink_check_target` accepts every message (`MatrixPilot/MAVLink.c:361-376`), so messages carry no target.

## Where the code and its documentation differ

The model follows the code; each difference is a lemma.

- Blocks nest 11 deep, not 12 (`Config/flightplan-logo.h:230`): slot 0 belongs to the running program, and on a full
  stack a block or call gets no frame, so what closes it acts on the caller's. An entered block, or a call, comes back
  behind itself with the caller's frames exactly if a slot was free (`LogoStackLimit.BlockComesBackIff`,
  `LogoStackLimit.CallComesBackIff`); of k REPEATs inside one another with a FD behind them, the FD is ever reached
  exactly if k is at most 11 (`LogoStackLimit.NestedElevenDeep`).
- After EXEC(f) the program that starts over is f, not the top (`Config/flightplan-logo.h:161-162`), unless f is MAIN, not
  defined, or has its TO at the very end (`LogoProgram.ExecStartsOver`, `LogoProgram.ExecutedForEver`).
- The argument of EXEC_ARG is not used: PARAM is what it was outside all calls (`LogoProgram.ExecIgnoresArgument`).
- BK_PARAM, LT_PARAM, WEST_PARAM, SOUTH_PARAM, ALT_DOWN_PARAM and SPEED_DECREASE_PARAM
  (`MatrixPilot/flightplan-logo.c:146-183`) have the effects of their positive counterparts. They do what is documented
  exactly for the values of PARAM of `LogoCommands.WestParamIff`, `LogoCommands.LeftParamIff`,
  `LogoCommands.BackParamIff` and `LogoCommands.SlowerParamIff`; with PARAM 1, WEST_PARAM goes east
  (`LogoCommands.WestGoesEast`).
- A program can be run out of its array exactly if some function number finds its last instruction
  (`LogoCycle.AllInsideIff`, `LogoCycle.TrailingToRunsOut`); programs made of blocks have no such function
  (`LogoProgram.BlocksNoTrailingTo`).
- On a full stack the interrupt handler is not entered, yet its update runs a cycle of the interrupted program, on the
  way to its goal (`LogoInterrupt.FullStackRunsProgram`).
- A handler that has executed CLEAR_INTERRUPT and is still running is not dropped at the finish line: the crossing brings
  the program back exactly if no such handler runs (`LogoInterrupt.CrossingIff`), and where the goal counts as reached
  the cycle is the handler's (`LogoInterrupt.InterruptTransparent`, `LogoInterrupt.ClearedHandlerStays`).
- An injected DO comes back one instruction too late (`LogoHandlers.InjectedCallSkips`).
- A data write that fails in the EEPROM is answered twice, the second time with success unless the area has a header
  and that is not written either (`StorageRuns.FailedWriteAnswersTwice`); a save of all blocks then goes on after its
  negative answer, and a save of one answers twice (`ServicesSpecific.FailedSave`).
- Formatting is not waited for: the next service turn finds the new directory valid in RAM and takes requests before it
  is written (`StorageStart.TransferIsAwaited`).
- A creation that fails in the EEPROM is answered negatively, but stays in the directory in RAM until the next power
  cycle, or empties its entry there (`StorageFailures.CreateFails`, `StorageFailures.FailedCreateForgotten`).
- The search for room does not always end, and its failure value 0, which the caller checks for
  (`MatrixPilot/data_storage.c:642-643`), is never given (`StorageSearch.EndsIff`, `StorageSearch.NeverZero`). Without room
  it ends only with a range that leaves the address space, which is created and answered with success
  (`StorageSearch.WithoutRoom`, `StorageRuns.CreateWithoutRoom`): both happen (`StorageSearch.FullMemoryHangs`,
  `StorageSearch.FullMemoryWraps`).
- An area of size 0 is created like any other (`StorageRuns.EmptyAreaCreated`). With room, a later search fails to end
  exactly if it is left standing on the address of such an area (`StorageSearch.WithRoom`), which depends on the order of
  the handles (`StorageSearch.EmptyAreaHangs`, `StorageSearch.EmptyAreaPassed`).
- Clearing erases a checksummed area only; a self-managed one keeps readable content with four bytes
  overwritten (`StorageContents.ClearErases`).
- A save fails when any block of the table does not fit, even one that was not to be saved (`ServicesAnswers.SaveAnswersIff`),
  and `data_services_save_specific` and `data_services_load_specific` answer negatively even when they start
  (`DataServices.DataServices.SaveSpecific`, `DataServices.DataServices.LoadSpecific`).
- A save or load that comes to a block without an area of its size repeats the refused request for ever and never
  answers (`ServicesAnswers.SaveAnswersIff`, `ServicesAnswers.LoadAnswersIff`).
- `check_enquote` overlooks leading blanks, which an unquoted value loses (`IniText.ReadsBackIff`, `IniText.LeadingBlankIsLost`).
- Erasing the settings without a section takes the first line whatever it is, with it a whole section
  if that line is a heading (`IniUpdates.EraseUnnamedIff`, `IniUpdates.EraseUnnamedTakesSection`).
- A waypoint frame may carry one hex digit more than the 44 documented (`MatrixPilot/telemetry.c:254`), as long as the sum
  counts it (`WaypointUplink.FrameDecodes`).
- A mission count without a clear before it appends to the stored plan (`MissionProtocol.UnclearedUpload`);
  a full mission sent again is stored whole all the same (`MissionProtocol.RepeatedUpload`). A clear in the middle of an
  upload leaves it without an end (`MissionDialogue.ClearedMidway`), and an ack ends it (`MissionDialogue.AckEnds`).
- Fading over to manual throttle drops less than ten units downward; upward the filter is dropped after one step
  whatever is left, against the comment at `MatrixPilot/altitudeCntrl.c:367-370` (`ThrottleFilter.DropsUp`,
  `ThrottleFilter.DropIsLarge`), which is below ten only if that step comes within nine units of the stick
  (`ThrottleFilter.DropBelowTenIff`).

## Model

| member | source | states |
|---|---|---|
| LogoMachine.FindStart | MatrixPilot/flightplan-logo.c:501-515 | A subroutine is found at a TO with its number, or not at all (-1, which is MAIN). |
| LogoMachine.ScanEnd | MatrixPilot/flightplan-logo.c:519-536 | The skip lands on an ELSE or END at or after its start, or gives 0. |
| LogoMachine.ParamFrame | MatrixPilot/flightplan-logo.c:540-552 | PARAM belongs to the topmost SUBROUTINE frame: none lies above it. |
| LogoMachine.Step | MatrixPilot/flightplan-logo.c:1040-1044 | One turn of the loop leaves the machine ready to fetch: index inside the program, slot 0 a SUBROUTINE frame, at most 12 frames, all return indices in range. |
| LogoMachine.ExecuteControl | MatrixPilot/flightplan-logo.c:674-1032 | Any single instruction, fetched or injected, keeps the control invariant, with index -1 allowed only before the increment. |
| LogoLayout.SkipLands | MatrixPilot/flightplan-logo.c:517-536 | A skip from before any well-nested block lands exactly on the ELSE or END right behind it. |
| LogoLayout.ScanBlock | MatrixPilot/flightplan-logo.c:524-534 | The scan passes a nested block of any shape at unchanged depth. |
| LogoLayout.FindStartLands | MatrixPilot/flightplan-logo.c:500-515 | A call starts at the body of the first definition of the function, or of MAIN for 0 and undefined numbers. |
| LogoSimulation.SimBlock | MatrixPilot/flightplan-logo.c:674-778 | From the start of any flattened block, the machine reaches after the budget's instructions exactly the world, PARAM, index and stack the recursive evaluation gives, whether it finishes, is cut off, or leaves by EXEC. |
| LogoSimulation.SimLoop | MatrixPilot/flightplan-logo.c:680-709 | REPEAT(n) runs its body max(1, n) times, n = -1 for ever, with nothing but its END between rounds. |
| LogoSimulation.CallReaches | MatrixPilot/flightplan-logo.c:769-778 | A DO of a closed subroutine comes back behind the call with the caller's frames and PARAM. |
| LogoSimulation.SimWhen | MatrixPilot/flightplan-logo.c:990-1029 | IF ... END runs the block or skips to behind its END. |
| LogoSimulation.SimChoose | MatrixPilot/flightplan-logo.c:990-1029 | IF ... ELSE ... END runs exactly one of the two branches and joins behind the END. |
| LogoProgram.ProgramSimulated | MatrixPilot/flightplan-logo.c:1034-1051 | For every program of well-nested blocks, every sensor stream and every n, effects and PARAM after n instructions are those of recursive evaluation, unless that outgrows the stack. |
| LogoProgram.FlightFollowsBlocks | MatrixPilot/flightplan-logo.c:321-377 | From `begin` on, over any number of updates without handler, cycle limits and FLY pauses included, the flight is the recursive evaluation of MAIN cut off at some instruction. |
| LogoProgram.BlocksNoTrailingTo | MatrixPilot/flightplan-logo.c:154-163 | Programs of blocks never end in TO, and no function number finds their last instruction. |
| LogoProgram.ExecStartsOver | MatrixPilot/flightplan-logo.c:762-767 | What starts over after EXEC(f), until the next EXEC, is f: at the top exactly if f is MAIN, not defined, or its TO is the very last instruction. |
| LogoProgram.ExecIgnoresArgument | MatrixPilot/flightplan-logo.c:762-767 | PARAM behind EXEC_ARG(f, x) is x exactly if it was x outside all calls before. |
| LogoProgram.ExecutedForEver | MatrixPilot/flightplan-logo.c:762-767 | A program that goes round in the EXECed function for ever, with PARAM 0 for an argument of 5. |
| LogoCycle.CycleIsSteps | MatrixPilot/flightplan-logo.c:1034-1060 | A processing cycle is between 1 and 32 instructions. |
| LogoCycle.UpdateKeepsInv | MatrixPilot/flightplan-logo.c:423-498 | Every update -- injected instruction, interrupt entered, continued or abandoned, goal reached -- keeps the invariant. |
| LogoCycle.AllRunsSafe | MatrixPilot/flightplan-logo.c:321-498 | If no function number from 1 to 255 finds the last instruction, in every run from `begin` under any mix of updates and injected instructions: depth 1 to 12, slot 0 a SUBROUTINE frame, the interrupt base 0 or a live SUBROUTINE frame, every fetch in bounds. |
| LogoCycle.AllInsideIff | MatrixPilot/flightplan-logo.c:423-463 | All runs, for all sensors and events, stay inside the program exactly if no function number finds its last instruction. |
| LogoCycle.Run | MatrixPilot/flightplan-logo.c:423-498 | The invariant after any sequence of events from a state that has it. |
| LogoCycle.EnterSafeIff | MatrixPilot/flightplan-logo.c:447-463 | Entering the configured handler is safe exactly if an instruction follows its TO. |
| LogoCycle.TrailingToRunsOut | MatrixPilot/flightplan-logo.c:459 | A handler whose TO is the last instruction makes the next fetch leave the array. |
| LogoInterrupt.HandlerStep | MatrixPilot/flightplan-logo.c:674-778 | While a handler without EXEC runs, every instruction keeps the frames below it and its return index. |
| LogoInterrupt.AbandonRestores | MatrixPilot/flightplan-logo.c:467-476 | Crossing the finish line drops an unfinished handler and restores index, depth and frames at entry. |
| LogoInterrupt.HandlerCycle | MatrixPilot/flightplan-logo.c:447-463 | Every cycle of the handler leaves it suspended above the untouched program, or ended with the program restored. |
| LogoInterrupt.UpdateCovers | MatrixPilot/flightplan-logo.c:447-498 | Any update, whatever was crossed or reached, leaves the program underneath covered or resting, moved by its own cycles only; what a crossing goes on with. |
| LogoInterrupt.UpdatesCover | MatrixPilot/flightplan-logo.c:447-498 | The same over any sequence of updates. |
| LogoInterrupt.CrossingIff | MatrixPilot/flightplan-logo.c:464-477 | Over any program underneath, a crossing without a cycle brings that program back exactly if no handler runs or one is still configured. |
| LogoInterrupt.InterruptTransparent | MatrixPilot/flightplan-logo.c:447-498 | After any updates with handlers entered, ended, dropped and entered again, and goals reached on the way, the update that crosses the line goes on with the program underneath -- its next cycle if the goal counts as reached, else index, stack and base exactly -- and with a running handler if that has cleared itself; without a cycle, exactly so. |
| LogoInterrupt.ClearedHandlerStays | MatrixPilot/flightplan-logo.c:464-497 | A program whose handler clears itself, outlives the crossing, and flies on in the program's place. |
| LogoInterrupt.ProgramWaits | MatrixPilot/flightplan-logo.c:447-463 | With a slot for the handler, and no goal reached, the program underneath is exactly where it was interrupted, however many updates it takes. |
| LogoInterrupt.EnteredIff | MatrixPilot/flightplan-logo.c:451-462 | The handler is entered exactly if a slot is free. |
| LogoInterrupt.FullStackRunsProgram | MatrixPilot/flightplan-logo.c:451-463 | On a full stack an en-route update is a cycle of the interrupted program; that program waits exactly if there is a slot or the cycle ends where it began. |
| LogoHandlers.BlockHandlersAreTransparent | MatrixPilot/flightplan-logo.c:446-498 | The same, with the same exception, for handlers as the documentation means them: functions of the program made of blocks, closed by END, that do not EXEC and fit the stack over the program underneath, whatever they read, set or clear, under any updates. |
| LogoHandlers.CallFreeHandlersNest | MatrixPilot/flightplan-logo.c:453-461 | Handlers without calls whose blocks fit the free slots meet that condition, whatever is read or flown. |
| LogoHandlers.WellNestedIsMeek | MatrixPilot/flightplan-logo.c:716-726 | A handler of well-nested blocks without EXEC, within the stack, is of the kind transparency needs, for ever. |
| LogoHandlers.InjectedCallSkips | MatrixPilot/flightplan-logo.c:426-433 | After an injected DO has returned, the instruction that was pending has been skipped. |
| LogoStackLimit.BlockComesBackIff | MatrixPilot/flightplan-logo.c:680-760 | A loop, an IF that holds or either branch of an IF with ELSE, whose arm finishes, comes back behind its END with the caller's frames exactly if a slot was free. |
| LogoStackLimit.FullStackCloses | MatrixPilot/flightplan-logo.c:680-760 | On a full stack the END or ELSE that closes the arm is executed on the caller's own top frame. |
| LogoStackLimit.CallComesBackIff | MatrixPilot/flightplan-logo.c:765-778 | A call that finishes comes back behind its DO with the caller's frames exactly if a slot was free. |
| LogoStackLimit.NestedElevenDeep | MatrixPilot/flightplan-logo.c:684-709 | In the program of k REPEATs inside one another and a FD behind them, for every k, the FD is ever reached exactly if k is at most 11; with more nothing is ever flown. |
| LogoStackLimit.RunKeepsRepeats | MatrixPilot/flightplan-logo.c:684-690 | In every run from `begin` REPEAT frames return to a REPEAT. |
| LogoStackLimit.FullStackRepeat | MatrixPilot/flightplan-logo.c:684-690 | On a full stack REPEAT, END directly inside a subroutine returns from it. |
| FixedWidth.Congruent | MatrixPilot/flightplan-logo.c:274-278 | 14-, 16- and 32-bit fields keep a number modulo their width, and the number itself where it fits. |
| LogoCommands.CommandLogs | MatrixPilot/flightplan-logo.c:676-681 | A turtle, flag or speed command has the effect of its argument, or of PARAM in its place. |
| LogoCommands.WestParamIff | MatrixPilot/flightplan-logo.c:160-176 | WEST_PARAM, SOUTH_PARAM and ALT_DOWN_PARAM move as documented exactly if twice PARAM wraps to 0. |
| LogoCommands.LeftParamIff | MatrixPilot/flightplan-logo.c:151-152 | LT_PARAM turns as documented exactly if twice PARAM, less the difference in 16-bit wraps, is a whole number of turns; short of overflow, for half turns. |
| LogoCommands.BackParamIff | MatrixPilot/flightplan-logo.c:145-146 | BK_PARAM moves as documented exactly if twice each displacement wraps to 0, or PARAM has no opposite. |
| LogoCommands.SlowerParamIff | MatrixPilot/flightplan-logo.c:182-183 | SPEED_DECREASE_PARAM slows down as documented exactly if twenty times PARAM wraps to 0 or both sums wrap to nothing above 0; short of overflow, for 0, and it speeds up for more. |
| LogoCommands.WestGoesEast | MatrixPilot/flightplan-logo.c:161 | With PARAM 1 WEST_PARAM moves the turtle one metre east. |
| LogoCommands.AddUndone | MatrixPilot/flightplan-logo.c:933-938 | PARAM_ADD(x) gives the sum if it fits; PARAM_ADD(-x) then restores PARAM, 16-bit overflow included. |
| LogoCommands.MulUndone | MatrixPilot/flightplan-logo.c:939-953 | PARAM_DIV(x) undoes a PARAM_MUL(x) whose product fits. |
| LogoCommands.DivisionTruncates | MatrixPilot/flightplan-logo.c:945-953 | The quotient is the one rounded toward zero, on either side. |
| LogoCommands.ParamDividesIff | MatrixPilot/flightplan-logo.c:945-953 | PARAM_DIV gives that quotient for all words and divisors exactly but for the most negative word by -1; by 0 it changes nothing. |
| LogoCommands.PensNest | MatrixPilot/flightplan-logo.c:903-912 | n times PEN_UP, then n times PEN_DOWN, restores the pen. |
| LogoCommands.ToggleTwiceIff | MatrixPilot/flightplan-logo.c:913-917 | Two PEN_TOGGLEs restore the pen exactly if it was raised at most once. |
| LogoCommands.TestsOppose | MatrixPilot/flightplan-logo.c:990-1008 | EQ/NE, GT/LE and LT/GE are opposites; of LT, EQ, GT exactly one holds. |
| LogoCommands.FindsFirst | MatrixPilot/flightplan-logo.c:507-514 | No TO of the function lies before the one found, none anywhere if none is found. |
| LogoCommands.MovesUndone | MatrixPilot/flightplan-logo.c:780-843 | FD/BK, EAST/WEST, NORTH/SOUTH, ALT_UP/ALT_DOWN and RT/LT undo each other exactly, 32- and 16-bit wrap-around included. |
| LogoCommands.Rotate | MatrixPilot/flightplan-logo.c:796-806 | The normalising loop gives an angle from 0 to 359, congruent to the sum unless that overflows. |
| LogoCommands.TurtlesApart | MatrixPilot/flightplan-logo.c:920-922 | Commands for one turtle leave the other where it is. |
| LogoCommands.SquareCloses | MatrixPilot/flightplan-logo.c:780-806 | FD(n) RT(90) four times from a cardinal heading ends exactly where it began, for every sine table with half-wave symmetry. |
| LogoMeaning.ParamCommands | MatrixPilot/flightplan-logo.c:924-955 | Through one instruction, in numbers: PARAM_SET sets PARAM to the argument, PARAM_ADD and PARAM_MUL to the sum and product if they fit and else to the word congruent to them, PARAM_DIV to the truncated quotient unless the divisor is 0. |
| LogoMeaning.OnlyParamMoves | MatrixPilot/flightplan-logo.c:540-552 | A command that is no block command, DO, EXEC or IF changes no frame but the argument of the topmost SUBROUTINE frame, and neither index nor interrupt base; only PARAM commands change that. |
| LogoMeaning.SensorLoads | MatrixPilot/flightplan-logo.c:589-672 | LOAD_TO_PARAM reads a sensor exactly for the identifiers 1 to 8 and 16 to 31; 32 leaves PARAM, every other gives 0. |
| LogoMeaning.TestsCompare | MatrixPilot/flightplan-logo.c:990-1029 | Each IF compares the value LOAD_TO_PARAM would load, read once, by its own comparison, and enters its block exactly if that holds. |
| LogoMeaning.OnlyEffectsLog | MatrixPilot/flightplan-logo.c:780-972 | Exactly FD, the rotations, moves, flags and speeds have an effect outside the machine. |
| LogoMeaning.WorldCommands | MatrixPilot/flightplan-logo.c:903-981 | Pen, active turtle and interrupt handler change by their own commands only, and as documented. |
| LogoMeaning.ForwardGoes | MatrixPilot/flightplan-logo.c:780-795 | With the firmware's sine table FD(n) moves the active turtle n metres north, east, south and west at the headings 0, 90, 180 and 270, and the other turtle not at all. |
| LogoMeaning.BearingRounds | MatrixPilot/flightplan-logo.c:785-788 | At any heading it goes along one of 256 directions less than 0.8 degrees from it. |
| LogoMeaning.MovesGo | MatrixPilot/flightplan-logo.c:823-863 | EAST, NORTH and ALT_UP move by their metres, SET_X_POS, SET_Y_POS and SET_ALT to them, USE_CURRENT_POS to the aircraft, HOME to the origin. |
| LogoMeaning.TurnsGo | MatrixPilot/flightplan-logo.c:796-821 | RT turns clockwise modulo 360, the other commands set the heading. |
| LogoMeaning.OthersStay | MatrixPilot/flightplan-logo.c:888-970 | Flags and speeds move no turtle. |
| LogoMeaning.SpeedsGo | MatrixPilot/flightplan-logo.c:957-970 | The speed commands add and set tenths of metres per second, not below 0. |
| LogoMeaning.CycleStops | MatrixPilot/flightplan-logo.c:1034-1053 | A cycle ends behind the first instruction that flies with the pen down and the plane's turtle active, or ends the interrupt handler, or behind the 32nd, and tells which. |
| LogoMeaning.RealIsSymmetric | libDCM/mathlibNAV.c:45-74 | The firmware's tables are among those for which squares close. |
| SineTable.HalfCircle | libDCM/mathlibNAV.c:45-122 | Half a circle on, sine and cosine have the opposite value, for all 256 angles. |
| SineTable.Quarters | libDCM/mathlibNAV.c:34-122 | The values at east, north, west and south are exact. |
| LogoInterpreter.Interpreter.FindStartOfSubroutine | MatrixPilot/flightplan-logo.c:501-515 | The loop computes `FindStart`. |
| LogoInterpreter.Interpreter.FindEndOfCurrentIfBlock | MatrixPilot/flightplan-logo.c:519-536 | The loop computes `ScanEnd`. |
| LogoInterpreter.Interpreter.CurrentParameterFrame | MatrixPilot/flightplan-logo.c:540-552 | The loop finds the topmost SUBROUTINE frame. |
| LogoInterpreter.Interpreter.ExecuteEnd | MatrixPilot/flightplan-logo.c:692-735 | The whole new state of END, and that it spends the cycle when it ends the handler. |
| LogoInterpreter.Interpreter.ExecuteBlockCommand | MatrixPilot/flightplan-logo.c:683-760 | The whole new state of REPEAT, END, TO and ELSE. |
| LogoInterpreter.Interpreter.ExecuteIf | MatrixPilot/flightplan-logo.c:990-1029 | The whole new state of the six IF commands. |
| LogoInterpreter.Interpreter.ExecuteEffect | MatrixPilot/flightplan-logo.c:780-977 | The logged effect, pen, active turtle and handler, and whether the command asks to fly. |
| LogoInterpreter.Interpreter.ProcessOneInstruction | MatrixPilot/flightplan-logo.c:674-1032 | The in-place interpreter moves its variables exactly as `Execute`, returns the fly flag, and spends the cycle exactly at a handler's END. |
| LogoInterpreter.Interpreter.ProcessInstructions | MatrixPilot/flightplan-logo.c:1034-1060 | The loop is a `Cycle`; the reported index moves only when it stops on a FLY. |
| LogoInterpreter.Interpreter.Begin | MatrixPilot/flightplan-logo.c:321-377 | Selects the plan, resets the machine and runs the first cycle; establishes the invariant. |
| LogoInterpreter.Interpreter.Update | MatrixPilot/flightplan-logo.c:423-498 | One 40 Hz update is `LogoCycle.Update` of the pending injected instruction or of the inputs. |
| LogoInterpreter.Interpreter.ServeHandler | MatrixPilot/flightplan-logo.c:446-477 | Entering, continuing and abandoning the handler in place. |
| LogoInterpreter.Interpreter.LiveCommit | MatrixPilot/flightplan-logo.c:1109-1121 | Only five bytes and a command other than REPEAT, END, ELSE, TO become pending. |
| LogoInterpreter.PendingStays | MatrixPilot/flightplan-logo.c:1069-1107 | While an instruction is pending, or after too many bytes, further bytes change nothing. |
| LogoInterpreter.FiveBytesMakeAnInstruction | MatrixPilot/flightplan-logo.c:1069-1107 | Five received bytes, whatever was there before, define the instruction, high argument byte first; any other number does not commit. |
| StorageAllocator.FindHole | MatrixPilot/data_storage.c:647-713 | The loop returns exactly if some round of the search succeeds, and with that round's address. |
| StorageAllocator.ScanTable | MatrixPilot/data_storage.c:666-700 | One round in place, for every table, start and size. |
| StorageAllocator.OverlapIsTouching | MatrixPilot/data_storage.c:677-684 | The three comparisons hold exactly if the ranges share an address, end points included. |
| StorageSearch.EndsIff | MatrixPilot/data_storage.c:647-713 | For every well laid out directory and 16-bit size the search ends exactly if nothing is in the way at its first standstill or, once wrapped around, at its second; it gives that address, never 0. |
| StorageSearch.NeverZero | MatrixPilot/data_storage.c:642-643 | No directory and no size makes the search give 0. |
| StorageSearch.WithRoom | MatrixPilot/data_storage.c:647-713 | With room the search ends exactly if it is not left standing on the address of an area of size 0, and gives the lowest page-aligned address above the table at which the area touches no other. |
| StorageSearch.RoomIsFound | MatrixPilot/data_storage.c:647-713 | Without areas of size 0 room is always found. |
| StorageSearch.WithoutRoom | MatrixPilot/data_storage.c:647-713 | Without room a search that ends gives a range that leaves the 16-bit address space. |
| StorageSearch.EndIsNoCandidate | MatrixPilot/data_storage.c:691-695 | Among the areas only one of size 0 ends exactly where a search can stand, so every other one in the way moves it on. |
| StorageSearch.HoleIsBehind | MatrixPilot/data_storage.c:634-639 | The next page behind an overlapping area never skips a hole. |
| StorageSearch.LayoutKept | MatrixPilot/data_storage.c:328-339 | Putting an area into a hole keeps areas page-aligned, above the table and apart. |
| StorageSearch.FullMemoryHangs | MatrixPilot/data_storage.c:642-700 | A directory without room on which the search never ends. |
| StorageSearch.FullMemoryWraps | MatrixPilot/data_storage.c:642-700 | A directory without room on which it ends, with a range whose end has wrapped into a gap. |
| StorageSearch.EmptyAreaArises | MatrixPilot/data_storage.c:607-630 | The search itself puts an area of size 0 at 320 behind one of size 100. |
| StorageSearch.EmptyAreaHangs | MatrixPilot/data_storage.c:647-700 | With these two areas in this order a search with room never ends. |
| StorageSearch.EmptyAreaPassed | MatrixPilot/data_storage.c:647-700 | Under exchanged handles it does. |
| StorageMachine.HeaderRoundTrip | MatrixPilot/data_storage.c:226-234 | A header written and read back is the same header. |
| StorageMachine.EntriesRoundTrip | MatrixPilot/data_storage.c:343-347 | A directory written and read back is the same directory. |
| StorageContents.Accepted | MatrixPilot/data_storage.c:470-503 | A waiting service accepts a read or a write exactly if the handle has an area of that data size. |
| StorageContents.WriteStores | MatrixPilot/data_storage.c:185-251 | A completed write makes exactly this handle's content these bytes, with one positive answer. |
| StorageContents.ReadReports | MatrixPilot/data_storage.c:254-325 | A read changes nothing stored, succeeds exactly if there is valid content, and delivers it. |
| StorageContents.ClearErases | MatrixPilot/data_storage.c:715-770 | A clear leaves other handles alone; afterwards there is no content exactly if the area is checksummed. |
| StorageContents.TouchedKeepsOthers | MatrixPilot/data_storage.c:185-251 | Bytes changed inside one area change no other handle's content and not the directory. |
| StorageRuns.CreateAllocates | MatrixPilot/data_storage.c:328-362 | A completed creation, of size 0 too, puts the area into the lowest hole, keeps the directory well laid out and stored, and every other handle's content. |
| StorageRuns.CreateWithoutRoom | MatrixPilot/data_storage.c:328-362 | Without room a creation whose search ends is answered with success for an area that leaves the memory. |
| StorageRuns.OversizeWraps | MatrixPilot/data_storage.c:616-620 | A checksummed area whose size with header exceeds 16 bits is created smaller than its header, with success. |
| StorageRuns.EmptyAreaCreated | MatrixPilot/data_storage.c:607-631 | A creation of size 0 is accepted and completed; the area then refuses every read and write. |
| StorageRuns.PerformRefines | MatrixPilot/data_storage.c:470-631 | Each completed request acts on the map from handle to bytes as it should and keeps the invariant. |
| StorageRuns.RunKeeps | MatrixPilot/data_storage.c:152-368 | Over any run of requests a handle not recreated keeps its entry, and its content while nothing writes or clears it. |
| StorageRuns.ReadReturnsLastWrite | MatrixPilot/data_storage.c:470-574 | Over any run in between, a read returns the bytes last written to the handle. |
| StorageRuns.ReadFailsAfterClear | MatrixPilot/data_storage.c:715-770 | After a clear every read fails until the next write or creation. |
| StorageRuns.RebootKeeps | MatrixPilot/data_storage.c:156-183 | After a power cycle the directory is read back and every handle has the content it had. |
| StorageRuns.FailedWriteAnswersTwice | MatrixPilot/data_storage.c:505-519 | A failed data write is answered negatively, then carried on with; the second answer is positive exactly if the area has no header or that is written. |
| StorageStart.BlankFormats | MatrixPilot/data_storage.c:154-177 | Over any memory without a valid directory the service starts with an empty one, changes nothing behind it, answers nobody, and no handle has content. |
| StorageStart.KeepsDirectory | MatrixPilot/data_storage.c:154-177 | A valid directory is taken as it is. |
| StorageStart.TransferIsAwaited | MatrixPilot/data_storage.c:152-368 | While a transfer is in progress the service does nothing; only formatting is not waited for. |
| StorageFailures.BusyRefuses | MatrixPilot/data_storage.c:470-632 | Until the service waits no request is accepted, and none leaves a trace. |
| StorageFailures.OtherKindsRefused | MatrixPilot/data_storage.c:470-632 | Areas of the two managed kinds only are created, read and written; a refused request changes nothing stored. |
| StorageFailures.ReadUnder | MatrixPilot/data_storage.c:254-311 | Whatever the EEPROM does in each turn, a read is over within three turns with exactly one answer, positive exactly if its transfers succeeded and the area has content, which it then delivers; nothing stored changes. |
| StorageFailures.WriteBusy | MatrixPilot/data_storage.c:186-214 | A write the EEPROM does not take gives one negative answer and stores nothing. |
| StorageFailures.WriteHeaderUnder | MatrixPilot/data_storage.c:216-250 | With the data written, the one answer is positive exactly if the header is written too; all other areas keep their content in any case. |
| StorageFailures.CreateFails | MatrixPilot/data_storage.c:327-362 | A creation the EEPROM does not take, or fails to store, gives one negative answer and leaves the EEPROM as it was; in RAM the handle has no area, or the new one. |
| StorageFailures.FailedCreateForgotten | MatrixPilot/data_storage.c:370-376 | After the next power cycle directory and contents are those before it. |
| StorageFailures.ClearFails | MatrixPilot/data_storage.c:728-770 | A clearing that fails gives one negative answer and stores nothing. |
| StorageFailures.StartFails | MatrixPilot/data_storage.c:393-458 | A start that fails is tried again, nothing stored and nobody answered. |
| DataStorage.Storage.Service | MatrixPilot/data_storage.c:152-368 | The service routine moves its variables exactly as the state machine. |
| DataStorage.Storage.StorageWrite | MatrixPilot/data_storage.c:470-503 | The request in place, with its refusals. |
| DataStorage.Storage.StorageRead | MatrixPilot/data_storage.c:521-552 | The request in place, with its refusals. |
| DataStorage.Storage.StorageCreateArea | MatrixPilot/data_storage.c:607-631 | The request in place, with its refusals. |
| DataStorage.Storage.ServeCreate | MatrixPilot/data_storage.c:328-362 | Allocation, for any size and table on which the search ends, directory and checksum updated in place, undone when the EEPROM is not ready. |
| DataStorage.Storage.ServeClear | MatrixPilot/data_storage.c:728-761 | The invalid header prepared and its first bytes written. |
| DataStorage.Storage.FormatTable | MatrixPilot/data_storage.c:420-443 | The directory emptied entry by entry. |
| DataStorage.Storage.TransferDone | MatrixPilot/data_storage.c:370-376 | Every completion callback, successful or not, moves the variables as the state machine. |
| ServicesMachine.SerialiseIsImage | MatrixPilot/data_services.c:382-407 | The buffer receives exactly the variables' bytes in order; size 0 exactly if they do not fit or there are none. |
| ServicesMachine.DeserialiseRestores | MatrixPilot/data_services.c:411-436 | Copying a saved image back gives every covered RAM byte its saved value and leaves all others, even when items alias. |
| ServicesRuns.SaveMatching | MatrixPilot/data_services.c:468-504 | A matching block is written to its own area, all other areas are kept. |
| ServicesRuns.SaveRun | MatrixPilot/data_services.c:297-308 | A save visits each matching block once in table order, stores its variables, touches no other area and answers once. |
| ServicesAnswers.SaveAnswersIff | MatrixPilot/data_services.c:468-516 | A save ends exactly if it does not come to a matching block without an area of its size; else the refused request is repeated for ever. The one answer is positive exactly if every block of the table, asked for or not, has 1 to 256 bytes. |
| ServicesAnswers.LoadAnswersIff | MatrixPilot/data_services.c:249-293 | A load ends, with one positive answer, exactly if it does not come to a matching block without an area of its size. |
| ServicesRuns.FetchBlock | MatrixPilot/data_services.c:263-278 | A matching block is read into the buffer exactly if its area has valid content. |
| ServicesRuns.LoadBlock | MatrixPilot/data_services.c:340-378 | One block of a load: skipped, unreadable, or copied to RAM; storage is left alone. |
| ServicesRuns.LoadRun | MatrixPilot/data_services.c:328-378 | A load requests each matching block once in order, restores exactly those with valid content, and answers once. |
| ServicesRuns.SaveThenLoad | MatrixPilot/data_services.c:249-378 | Save with flags f, any change of the variables, load with f: every parameter of every matching block has its saved value and every other byte its changed one. |
| ServicesSpecific.SpecificSave | MatrixPilot/data_services.c:452-535 | Saving one area whose block fits and has an area of its size: one turn stores that block and no other, with one request and one positive answer. |
| ServicesSpecific.SpecificSaveIff | MatrixPilot/data_services.c:452-535 | It never ends exactly if the block fits but has no area of its size; otherwise it ends in one turn, answered positively exactly for a block with an area, negatively for one that does not fit, not at all without a block. |
| ServicesSpecific.BusyRefuses | MatrixPilot/data_services.c:297-337 | While something is going on no other request is accepted. |
| ServicesSpecific.AwaitsOnce | MatrixPilot/data_services.c:267-277 | An accepted request is counted once, and the services wait in the phase for it. |
| ServicesSpecific.WaitsForAnswer | MatrixPilot/data_services.c:145-171 | Until storage calls back they do nothing. |
| ServicesSpecific.FinishedTellsNobody | MatrixPilot/data_services.c:249-259 | After its end a request tells its user nothing more. |
| ServicesSpecific.UnselectedFails | MatrixPilot/data_services.c:280-293 | A single block the flags do not select is answered negatively, with nothing asked of storage. |
| ServicesSpecific.NegativeAnswerEnds | MatrixPilot/data_services.c:519-540 | A negative answer of storage ends a save of all blocks and of one alike, with one negative answer, and nothing more is done. |
| ServicesSpecific.FailedSave | MatrixPilot/data_services.c:519-540 | A data write that fails in the EEPROM calls back twice: a save of one block answers twice, a save of all answers negatively and, if the second call is positive, goes on with the next block. |
| ServicesSpecific.SpecificLoad | MatrixPilot/data_services.c:312-378 | Loading one area restores exactly the variables of its block, with one request and one positive answer. |
| ServicesSpecific.SpecificLoadFails | MatrixPilot/data_services.c:312-378 | Without content it is answered negatively and changes no variable; without an area of its size it never ends; without a block it is not begun. |
| ServicesSpecific.SpecificRoundTrip | MatrixPilot/data_services.c:312-535 | Save one area, any change of the variables, load it: its variables are back and every other byte is as changed. |
| ServicesStartUp.WaitsForStorage | MatrixPilot/data_services.c:180-225 | Start-up waits for storage only while a block is left to look at; then it loads all start-up blocks. |
| ServicesStartUp.FailedCreationRepeats | MatrixPilot/data_services.c:180-231 | A failed creation is asked for again, after a successful one the next block is looked at. |
| ServicesStartUp.StartUp | MatrixPilot/data_services.c:180-231 | Start-up ends with an area of the right size for every block, created where it was missing, keeps the content of every other handle, and goes on to load. |
| ServicesStartUp.PowerCycle | MatrixPilot/data_services.c:131-378 | Saved, switched off and on with anything in RAM, and started: every parameter of every block loaded at start-up has its saved value and no other byte is touched. |
| DataServices.DataServices.InitTableIndex | MatrixPilot/data_services.c:180-225 | The loop over the blocks in place, with the one creation it asks for. |
| DataServices.DataServices.AreaCreated | MatrixPilot/data_services.c:227-231 | The callback in place. |
| DataServices.DataServices.SerialiseItemsToBuffer | MatrixPilot/data_services.c:382-407 | The loop of copies computes the serialisation. |
| DataServices.DataServices.SerialiseBufferToItems | MatrixPilot/data_services.c:411-436 | The loop of copies computes the deserialisation in RAM. |
| DataServices.DataServices.FindTableIndex | MatrixPilot/data_services.c:438-450 | The loop finds the first block with the area, or gives the invalid handle. |
| DataServices.DataServices.SaveSpecific | MatrixPilot/data_services.c:452-465 | The request in place; it answers negatively in any case. |
| DataServices.DataServices.LoadSpecific | MatrixPilot/data_services.c:312-325 | The request in place; it answers negatively in any case. |
| DataServices.DataServices.Write | MatrixPilot/data_services.c:468-516 | One turn of a save in place, with the one storage request it makes. |
| DataServices.DataServices.ReadIndex | MatrixPilot/data_services.c:249-293 | One turn of a load in place, with the one storage request it makes. |
| DataServices.DataServices.RequestAccepted | MatrixPilot/data_services.c:267-277 | The waiting state in place. |
| DataServices.DataServices.StorageWritten | MatrixPilot/data_services.c:519-539 | The write callback in place. |
| DataServices.DataServices.CommitRead | MatrixPilot/data_services.c:340-359 | The copy of a block to the variables in place. |
| DataServices.DataServices.StorageRead | MatrixPilot/data_services.c:362-378 | The read callback in place. |
| IniText.UnescapeEscape | MatrixPilot/minIni.c:164-185 | Removing escapes from an escaped text gives the text, for all mixes of quotes and backslashes. |
| IniText.ScanEscaped | MatrixPilot/minIni.c:201-214 | Inside quotes the comment scan passes an escaped text with any quotes, backslashes, `;` and `#`. |
| IniText.StoredValue | MatrixPilot/minIni.c:286-292 | What a stored value reads back as: itself if it was quoted, else itself without leading blanks. |
| IniText.ReadsBackIff | MatrixPilot/minIni.c:523-564 | A printable value that fits is read back unchanged exactly if it has no leading blank or is one that gets quotes. |
| IniText.LeadingBlankIsLost | MatrixPilot/minIni.c:523-534 | A value that is not read back as it was written. |
| IniBuffer.SaveStrncpy | MatrixPilot/minIni.c:148-191 | Plain, quoting and dequoting copies store exactly the specified text, terminated, inside the room given. |
| IniBuffer.CleanString | MatrixPilot/minIni.c:193-224 | The moving ends delimit the text without comment, trailing blanks and surrounding quotes. |
| IniBuffer.CheckEnquote | MatrixPilot/minIni.c:523-534 | Quotes are chosen exactly for values with `"`, `;`, `#` or a final blank. |
| IniBuffer.SkipTrailing | MatrixPilot/minIni.c:131-146 | The loop strips exactly the trailing blanks. |
| IniNumber.Long2Str | MatrixPilot/minIni.c:788-804 | The buffer holds the decimal notation of any long, the most negative included. |
| IniNumber.StrReverse | MatrixPilot/minIni.c:776-786 | The string is reversed in place, what lies behind it is kept. |
| IniNumber.ReversedAt | MatrixPilot/minIni.c:781-785 | Character k of the reversal is the k-th from the end. |
| IniNumber.DecimalReadsBack | MatrixPilot/minIni.c:330-337 | The decimal parse of the notation of any long is that long. |
| IniStore.GetAfterPut | MatrixPilot/minIni.c:615-771 | After a put a reader, under any spelling of section and key, gets the value exactly if it survives quoting. |
| IniStore.PutKeepsOthers | MatrixPilot/minIni.c:615-771 | After a put or a removal every other section and key reads as before. |
| IniStore.KeyFoundIff | MatrixPilot/minIni.c:260-273 | Of all printable keys exactly those without `=`, surrounding blanks and a leading `[`, `;` or `#`, and short enough, are found again in the line written for them. |
| IniStore.SectionFoundIff | MatrixPilot/minIni.c:239-247 | Of all printable names exactly those without `]`, and short enough, are found again in their heading. |
| IniStore.PutInKeepsHeadings | MatrixPilot/minIni.c:711-760 | An update inside a section leaves what every heading opens as it was. |
| IniStore.KeyLineIsEntry | MatrixPilot/minIni.c:551-564 | The line written is found again as an entry: separator behind the key, no comment, no heading, the stored value behind it. |
| IniStore.SectionLineOpens | MatrixPilot/minIni.c:536-549 | The heading written opens exactly the sections of that name. |
| IniReading.WrittenLineReads | MatrixPilot/minIni.c:252-288 | A line with any blanks around key, separator and value, an equal sign or, where the line has none, a colon, and a comment behind, is an entry of exactly its key, and its value is read as it stands. |
| IniReading.CommentLineIsSkipped | MatrixPilot/minIni.c:256-263 | A comment line is no entry, whatever it holds. |
| IniReading.HeadingEndsSection | MatrixPilot/minIni.c:256-258 | Nothing behind the next heading is read. |
| IniReading.WrittenWholeIff | MatrixPilot/minIni.c:551-566 | A value that needs no quotes is written whole exactly if key and value have at most 508 characters. |
| IniForeign.QuotedWholeIff | MatrixPilot/minIni.c:551-566 | One that needs quotes is written whole exactly if key and escaped value have at most 506 characters. |
| IniForeign.NumberReads | MatrixPilot/minIni.c:330-337 | White space, a sign or none, digits and anything behind them read as the number, cut off at the ends of a long. |
| IniForeign.LongOfText | MatrixPilot/minIni.c:330-337 | An empty text gives the default, a second character x a hexadecimal number, any other text a decimal one. |
| IniForeign.DecimalIsCanonical | MatrixPilot/minIni.c:788-804 | A sign exactly for negative numbers, and no leading zero but that of 0. |
| IniForeign.BlankIs | MatrixPilot/minIni.c:123-150 | Blank are the control characters, the blank and, the type being signed, all beyond ASCII. |
| IniForeign.SameLetterIff | MatrixPilot/minIni.c:236-263 | Names agree exactly up to the case of ASCII letters. |
| IniForeign.LongLineIsSplit | MatrixPilot/minGlue.h:18 | A line longer than the buffer is taken in pieces. |
| IniReading.UnclosedOpensNone | MatrixPilot/minIni.c:230-236 | A line without a closing bracket opens no section. |
| IniReading.HeadingOpens | MatrixPilot/minIni.c:224-236 | A heading opens exactly the section between its brackets, whatever stands before and behind them. |
| IniUpdates.PutIsLocal | MatrixPilot/minIni.c:656-771 | Everything before and after one place is kept; there at most one line goes, an entry of the key, and only the new entry comes, at the end of the file possibly behind a blank line and its heading. |
| IniUpdates.PutInIsLocal | MatrixPilot/minIni.c:711-760 | In a section the place is the first entry of the key, else the end of the section. |
| IniUpdates.PutKeepsText | MatrixPilot/minIni.c:551-564 | Updates keep a file of terminated lines that fit the buffer. |
| IniUpdates.RemovedIff | MatrixPilot/minIni.c:747-760 | After a removal the setting is gone exactly if its section did not repeat it. |
| IniUpdates.EraseKeepsOthers | MatrixPilot/minIni.c:686-733 | Erasing a section keeps every setting of every other section. |
| IniUpdates.ErasedBody | MatrixPilot/minIni.c:701-732 | What the erased name opens afterwards is what its second heading opened. |
| IniUpdates.EraseUnnamedIff | MatrixPilot/minIni.c:701-704 | Erasing without a section name drops just the entries above the first heading exactly if the file does not begin with a heading. |
| IniUpdates.EraseUnnamedTakesSection | MatrixPilot/minIni.c:701-704 | Files on which it erases a section instead. |
| IniUpdates.UpdateReadsBack | MatrixPilot/minIni.c:641-650 | After the whole update, early exit included, a reader with any large enough buffer gets the value exactly if it survives quoting or was there before. |
| IniUpdates.UpdateTwice | MatrixPilot/minIni.c:637-646 | Repeating an update changes nothing, for every file and value, surviving quoting or not. |
| IniUpdates.LongReadsBack | MatrixPilot/minIni.c:814-819 | `ini_putl` then `ini_getl` gives the long, whatever the file held. |
| IniFile.TakesLine | MatrixPilot/minGlue.h:18 | At the start of a line that fits, `fgets` takes exactly that line. |
| IniFile.PutInAt | MatrixPilot/minIni.c:710-760 | The update of a section, from the first line that is a heading or the key. |
| IniFile.PutAfterAt | MatrixPilot/minIni.c:663-694 | The update of a file, from the first heading of the section. |
| IniRewriter.Rewriter.CacheAccum | MatrixPilot/minIni.c:566-573 | A line is cached exactly if the cache stays below the buffer size. |
| IniRewriter.Rewriter.CacheFlush | MatrixPilot/minIni.c:575-595 | Seeking back and reading again writes exactly the cached lines, none lost, none twice, and ends behind them. |
| IniRewriter.Rewriter.Keep | MatrixPilot/minIni.c:686-692 | A line is kept through a full cache or a free one. |
| IniRewriter.Rewriter.CopyToSection | MatrixPilot/minIni.c:666-694 | The lines up to the first heading of the section are kept, it included unless it is to go. |
| IniRewriter.Rewriter.CopyToSite | MatrixPilot/minIni.c:710-739 | The lines up to the entry or the next heading are kept. |
| IniRewriter.Rewriter.WriteAtSite | MatrixPilot/minIni.c:740-769 | The new entry, the line found there unless it is the old entry, and the rest of the file. |
| IniRewriter.Rewriter.PutEntry | MatrixPilot/minIni.c:656-771 | The rewritten text is the join of `IniStore.Put` of the lines. |
| IniRewriter.Rewriter.EraseSection | MatrixPilot/minIni.c:656-771 | The rewritten text is the join of `IniStore.Erase` of the lines. |
| IniRewriter.Rewriter.Puts | MatrixPilot/minIni.c:615-771 | `ini_puts`, character by character, leaves the file as `IniStore.Update` says. |
| IniRewriter.Rewriter.GetKeyString | MatrixPilot/minIni.c:226-293 | The two search loops find what `IniStore.Get` specifies. |
| IniRewriter.Rewriter.Gets | MatrixPilot/minIni.c:305-320 | The entry's value, or the default cut to the buffer. |
| IniRewriter.ComposeKey | MatrixPilot/minIni.c:551-564 | The buffer holds the key's line, terminated, and is never overrun. |
| IniRewriter.ComposeSection | MatrixPilot/minIni.c:536-549 | The buffer holds the heading, terminated, and is never overrun. |
| RingBuffer.Ring.Get | MatrixPilot/ring_buffer.c:57-68 | Takes the oldest byte, or reports empty and changes nothing. |
| RingBuffer.Ring.Put | MatrixPilot/ring_buffer.c:73-82 | Under any interrupts the byte is appended, or refused, and refused only if the ring was full; nothing queued is lost or changed. |
| RingBuffer.Ring.PutN | MatrixPilot/ring_buffer.c:88-122 | Under any interrupts, at each point independently, exactly a prefix is appended, the whole if the ring had room for it at the call; with none before the sample a short one stores what there was room for at the call. |
| RingBuffer.Ring.Available | MatrixPilot/ring_buffer.c:126-137 | At rest the number of queued bytes. |
| RingBuffer.Ring.Space | MatrixPilot/ring_buffer.c:141-162 | The room there was at the call, never more than there is on return; at rest, with the bytes available, RINGLEN. |
| RingBuffer.Ring.QueueData | MatrixPilot/ring_buffer.c:164-175 | All or nothing, accepted exactly if more room than needed is left. |
| RingBuffer.WindowGrows | MatrixPilot/ring_buffer.c:109-120 | Moving the head over filled slots, round the end or not, appends exactly those bytes. |
| RingBuffer.WindowFree | MatrixPilot/ring_buffer.c:76-77 | Storing behind the head, also when the ring is full, changes no queued byte. |
| ModeSwitch.DownIsManual | MatrixPilot/mode_switch.c:74-81 | From any history three polls with the switch down give a manual request, kept for as long as it stays down. |
| ModeSwitch.UpIsNotManual | MatrixPilot/mode_switch.c:74-81 | From any history three polls with the switch up give a request that is not manual, kept for as long as it stays up. |
| ModeSwitch.UpStabilizes | MatrixPilot/mode_switch.c:92-102 | From power-on the second poll up requests stabilized. |
| ModeSwitch.LongTermIff | MatrixPilot/mode_switch.c:85-198 | The automaton is in long-term stabilized and manual exactly when the levels of the polls alone say so: up out of long-term manual and not down since, or back from a toggle that came too late or from autonomous flight. |
| ModeSwitch.AutonomousIff | MatrixPilot/mode_switch.c:81-200 | Over all histories, in terms of the levels polled alone, autonomous is requested exactly after two complete Down/Up toggles out of long-term stabilized, each dwell within the window, and no move down since. |
| ModeSwitch.TogglesSuffice | MatrixPilot/mode_switch.c:112-189 | Two such toggles do give it. |
| ModeSwitch.AlwaysConsistent | MatrixPilot/mode_switch.c:85-198 | The request fits the phase in every run, and the 16-bit counter stays below 23. |
| ModeSwitch.SwitchReader.Poll2Pos | MatrixPilot/mode_switch.c:81-200 | The poll in place, for any pulse, the threshold itself included, follows the automaton. |
| FlightStates.AlwaysSound | MatrixPilot/states.c:75-540 | In every run: steering, pitch feedback and plan are determined by the state; trims once, then the origin once, then dead reckoning, all before flight; a hold only in return. |
| FlightStates.WaypointNeedsToggles | MatrixPilot/states.c:453-540 | With the two-position switch polled before each heartbeat, no run from power-on is in waypoint flight unless the switch was toggled twice in time by some heartbeat with the radio on. |
| FlightStates.NeverGroundedAgain | MatrixPilot/states.c:332-408 | Once out of acquiring no run comes back to start-up. |
| FlightStates.ReturnsHome | MatrixPilot/states.c:145-162 | With the radio off and GPS fresh, from every flight state and counter phase return is entered by the next synchronous heartbeat, at most the 21st, and kept. |
| FlightStates.Remembers | MatrixPilot/mode_switch.c:259-280 | The remembered flags are always those of the last switch position received by radio. |
| FlightStates.HoldBeat | MatrixPilot/mode_switch.c:261-276 | A hold ends exactly at the first heartbeat with the radio on and the switch elsewhere. |
| FlightStates.HoldLasts | MatrixPilot/states.c:523-540 | While the switch stays where it was, no run leaves return after the signal is back. |
| FlightStates.PilotObeyed | MatrixPilot/states.c:453-540 | Without a hold, radio on, the flight the switch asks for -- manual, stabilized, or waypoint with GPS -- is in force by the next synchronous heartbeat, from every flight state, and kept. |
| FlightTable.BeatGoes | MatrixPilot/states.c:453-540 | From every flight state each heartbeat leads exactly where a table of switch, hold, radio and GPS says, on the 21st heartbeat or when signalled. |
| FlightTable.BeatRequests | MatrixPilot/mode_switch.c:202-288 | Each heartbeat requests: to come home without radio, nothing under a hold, else what the switch asks for. |
| FlightTable.BeatHolds | MatrixPilot/states.c:304-327 | A hold begins exactly when the machine runs without radio and ends up returning, and ends exactly when the switch is seen elsewhere. |
| FlightTable.BeatControls | MatrixPilot/states.c:168-327 | A heartbeat that changes the state sets steering, feedback, altitude holds by the settings of that moment, and plan; no other changes them. |
| FlightTable.StartUpTakes | MatrixPilot/states.c:332-408 | With everything in order manual flight is reached after exactly the calibration and standby runs, one state after the other. |
| FlightTable.Acquires | MatrixPilot/states.c:359-408 | In the standby pause the origin is saved with 6 runs to go, dead reckoning starts with 2 to go, and the last four waggle to alternate sides. |
| FlightTable.FirstBeats | MatrixPilot/states.c:145-162 | From power-on the machine first runs at the 21st heartbeat. |
| FlightTable.GroundWaits | MatrixPilot/states.c:340-408 | Without radio calibration starts over; without radio, GPS, magnetometer or metrics the standby pause stands still. |
| FlightComputer.Computer.CheckModeSwitch | MatrixPilot/mode_switch.c:202-288 | The request flags and the hold in place. |
| FlightComputer.Computer.RunAcquiring | MatrixPilot/states.c:359-408 | The standby countdown in place. |
| FlightComputer.Computer.RunInFlight | MatrixPilot/states.c:453-540 | The four flight handlers in place. |
| FlightComputer.Computer.EntReturn | MatrixPilot/states.c:304-327 | The whole new state on entering return. |
| FlightComputer.Computer.EntWaypoint | MatrixPilot/states.c:282-301 | The whole new state on entering waypoint flight. |
| FlightComputer.Computer.EntStabilized | MatrixPilot/states.c:229-247 | The whole new state on entering stabilized flight. |
| FlightComputer.Computer.Beat | MatrixPilot/states.c:145-162 | The heartbeat in place is `FlightStates.Heartbeat`. |
| WaypointUplink.FrameGoesOn | MatrixPilot/telemetry.c:268-285 | Inside a frame each digit completes its byte in its place, through a signed char, and counts in the sum. |
| WaypointUplink.FrameDecodes | MatrixPilot/telemetry.c:158-309 | A frame, with updates anywhere inside it, leaves a ready waypoint exactly if it has 22 whole bytes, with or without half a one more, and the matching sum. |
| WaypointUplink.ReadyOnlyByFrame | MatrixPilot/telemetry.c:288-309 | In every run a waypoint becomes ready only with the last byte of such a frame, begun between messages, and then holds its bytes. |
| WaypointUplink.SignedCharIs | MatrixPilot/telemetry.c:262-285 | The signed char with the bits of the byte. |
| WaypointUplink.VoltageReads | MatrixPilot/telemetry.c:200-213 | V and two bytes set the voltage to twice their word and leave the waypoint alone. |
| WaypointUplink.TakenOnce | MatrixPilot/flightplan-waypoints.c:355-372 | A ready waypoint is taken once, and the next one has room. |
| WaypointFrames.OrderFits | MatrixPilot/flightplan-waypoints.c:65 | The byte order table takes the wire's order to the memory's. |
| WaypointFrames.MemoryReads | MatrixPilot/flightplan-waypoints.c:42 | The 22 bytes of the structure determine its seven fields, negative ones included. |
| WaypointFrames.WaypointArrives | MatrixPilot/telemetry.c:243-258 | Every waypoint sent as W, 44 digits, star and checksum is ready at the end and is the waypoint sent, whatever was received before. |
| WaypointLink.Link.LiveReceivedByte | MatrixPilot/flightplan-waypoints.c:406-416 | The byte goes to its place; one too many is counted, once. |
| WaypointLink.Link.FrameData | MatrixPilot/telemetry.c:260-286 | The data state in place. |
| WaypointLink.Link.FrameChecksum | MatrixPilot/telemetry.c:288-309 | The checksum state in place. |
| WaypointLink.Link.ReceivedByte | MatrixPilot/telemetry.c:153-213 | The automaton in place, voltage messages included. |
| WaypointLink.Link.TakeInjected | MatrixPilot/flightplan-waypoints.c:358-368 | A ready waypoint is handed over once. |
| MissionProtocol.AlwaysSound | MatrixPilot/MAVMission.c:76-95 | Whatever arrives, sending and receiving are never both set and the plan fits its table. |
| MissionProtocol.UploadInOrder | MatrixPilot/MAVMission.c:268-388 | After a count, under any loss, repetition or reordering of items, the plan is the old one followed by the first `index` items in order, and an ack is sent exactly when all are taken. |
| MissionProtocol.ClearedUpload | MatrixPilot/MAVMission.c:196-388 | After a clear the plan is exactly that prefix, and whole exactly when acknowledged. |
| MissionProtocol.UnclearedUpload | MatrixPilot/MAVMission.c:244-266 | A completed upload without a clear is the mission sent exactly if the plan was empty before or, for a full mission, if old and new points together begin with it. |
| MissionDialogue.MissionUploads | MatrixPilot/MAVMission.c:244-466 | A ground station that answers what it is asked uploads its whole mission: the vehicle asks for the items from 0 on, each once, stores them in order and sends one ack. |
| MissionDialogue.OneExchange | MatrixPilot/MAVMission.c:458-466 | Each request is for the item that is taken next. |
| MissionDialogue.TellsCount | MatrixPilot/MAVMission.c:468-478 | A request for the list is answered by the next tick, once, with the length of the plan. |
| MissionDialogue.TellsItem | MatrixPilot/MAVMission.c:480-512 | A request for a waypoint while sending is answered by the next tick, once, with that waypoint. |
| MissionDialogue.DownloadsWhatWasUploaded | MatrixPilot/MAVMission.c:76-512 | A download after an upload tells the number of items and then every one of them as it was sent, in order. |
| MissionDialogue.AckEnds | MatrixPilot/MAVMission.c:177-194 | An ack ends a download at once and an upload with the next tick. |
| MissionDialogue.OthersIgnored | MatrixPilot/MAVMission.c:268-365 | Items not asked for, or with a command not understood, change nothing. |
| MissionDialogue.ClearedMidway | MatrixPilot/MAVMission.c:196-218 | A clear in the middle of an upload forgets the total: further items are stored and asked for, and none is acknowledged. |
| MissionDialogue.FlagsTell | MatrixPilot/MAVMission.c:292-365 | The stored flags tell exactly whether the frame was global and the command a take-off or a landing. |
| MissionProtocol.SilenceEnds | MatrixPilot/MAVMission.c:446-456 | Without accepted traffic both directions are dropped by the tick after the timer has run out, the 121st at the latest. |
| MissionProtocol.OpenUntil | MatrixPilot/MAVMission.c:514 | And not earlier: with ticks only, a direction stays open for exactly as many as the timer counts. |
| MissionLink.Link.MissionCount | MatrixPilot/MAVMission.c:244-266 | The message handled in place. |
| MissionLink.Link.MissionItem | MatrixPilot/MAVMission.c:268-388 | The message handled in place: refused, stored, or stored and acknowledged. |
| MissionLink.Link.MissionClearAll | MatrixPilot/MAVMission.c:196-218 | The message handled in place, with three acks. |
| MissionLink.Link.AddPoint | MatrixPilot/flightplan-waypoints.c:135-155 | The point is appended, or dropped when the plan is full. |
| MissionLink.Link.Output | MatrixPilot/MAVMission.c:426-516 | The 40 Hz output in place: time-out, messages due, countdown. |
| ThrottleFilter.StepApproaches | MatrixPilot/altitudeCntrl.c:342 | One step moves the upper word toward the target and not past it, at least a sixteenth of a unit closer, and rests exactly at the target. |
| ThrottleFilter.NoOvershoot | MatrixPilot/altitudeCntrl.c:342 | Over any number of steps the upper word is monotone and stays between start and target. |
| ThrottleFilter.Converges | MatrixPilot/altitudeCntrl.c:342 | The target is reached exactly within 16 steps per unit of difference, and kept. |
| ThrottleFilter.FadesDown | MatrixPilot/altitudeCntrl.c:365-373 | Fading down, the filter is given up only within ten units of the stick. |
| ThrottleFilter.DropsUp | MatrixPilot/altitudeCntrl.c:365-373 | Below the stick it is given up after one step, dropping the correction still to be made. |
| ThrottleFilter.DropIsLarge | MatrixPilot/altitudeCntrl.c:365-373 | That is fifteen sixteenths of the difference, up to one unit. |
| ThrottleFilter.DropBelowTenIff | MatrixPilot/altitudeCntrl.c:365-373 | It is below the ten units of fading down exactly if one step comes within nine units of the stick. |
| ThrottleFilter.FollowsStick | MatrixPilot/altitudeCntrl.c:358-379 | In use or given up the filter follows the stick; once given up it stays so, with no correction. |
| ThrottleFilter.ManualSettles | MatrixPilot/altitudeCntrl.c:358-379 | Within 16 polls per unit of difference, and one more, it rests at the stick, given up, whichever side it came from. |
| ThrottleFilter.Throttle.ManualThrottle | MatrixPilot/altitudeCntrl.c:358-379 | The filter, its flag and the control value in place. |
| ThrottleFilter.Throttle.Follow | MatrixPilot/altitudeCntrl.c:339-345 | The automatic branch in place. |

## Left out

- LogoProgram.FlightFollowsBlocks: covers flights without a configured handler; handlers are covered by LogoHandlers.BlockHandlersAreTransparent.
- LogoProgram.ProgramSimulated: says nothing after evaluation has outgrown the stack or called an unclosed MAIN, where the documentation's block meaning ends.
- StorageAllocator.FindHole: requires that the search ends, which StorageSearch.EndsIff decides; the source does not return otherwise.
- StorageRuns.CreateAllocates: for areas whose size with header fits 16 bits; StorageRuns.OversizeWraps says what becomes of larger ones.
- StorageRuns.RebootKeeps: the table's CRC covers only its first entry (`MatrixPilot/data_storage.c:344`, `MatrixPilot/data_storage.c:412`), so nothing is claimed for a damaged directory.
- StorageRuns.ReadReturnsLastWrite: for EEPROM transfers that succeed; what failing ones do is said by StorageFailures.ReadUnder and its neighbours.
- ServicesRuns.LoadRun: for blocks of at most 256 bytes, because loading reads a block into the buffer without a size check, and for matching blocks that have their areas; without, ServicesAnswers.LoadAnswersIff says what happens.
- ServicesSpecific.SpecificLoad: for a block of at most 256 bytes, for the same reason.
- ServicesSpecific.SpecificLoadFails: for a block of at most 256 bytes, for the same reason.
- IniRewriter.Rewriter.Puts: file and directory calls that fail, the temporary name and the rename are not modelled.
- IniStore.GetAfterPut: for the keys and sections that can be found again at all, which are exactly those (IniStore.KeyFoundIff, IniStore.SectionFoundIff).
- RingBuffer.Ring.PutN: the interrupt is modelled as whole gets between the producer's steps, as the processor runs it.
- FlightStates.ReturnsHome: a radio-off signal that arrives inside a heartbeat counts for the next one.
- MissionProtocol.UploadInOrder: items of other frames store whatever location is at hand; a change of flight plan in the middle of an upload is not modelled.
- ThrottleFilter.Converges: for targets whose difference from the filter fits a 16-bit int.
- The turtle's goal, camera view and navigation set from the turtles, and absolute positions: vector routines that are not part of this model.
- ServicesStartUp.StartUp: requires for every missing area that it fits and that the search for it ends, and a handle for each block; the other cases are StorageSearch.EndsIff and StorageRuns.CreateWithoutRoom.
- Following waypoints (`set_waypoint`, `next_waypoint`): index bookkeeping; and the conversion of relative waypoints sent to the ground station, a vector routine that is not part of this model.
- Browsing and floating-point access of INI files, hexadecimal numbers (a parameter), and `queue_string`, `queue_prepend`.
- Catapult launch, helicopters, fly-by-datalink, the other failsafe types, and the target altitude set on entering stabilized flight.
- Attitude, roll, pitch and yaw control, camera, servo mixing, telemetry printing, OSD and USB.
