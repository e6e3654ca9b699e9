# CAN bootloader loop and robot planning domains, modelled in Dafny

This project models two parts of the robot-software repository and proves properties of both.

**The bootloader's receive/dispatch loop** (`bootloader.c`, module `Bootloader` in `bootloader.dfy`).
On boot the loop does three things:
- it takes its configuration from the first configuration page if that page validates, otherwise from the second;
- it arms a fall-back timeout unless the boot argument asks for none;
- it then polls the CAN bus.

A frame whose identifier has bit 7 (`START_OF_DATAGRAM_MASK`) set restarts datagram reassembly, and every payload byte is then fed in order. When a datagram is complete and valid, the loop:
1. disarms the timeout;
2. scans the destination list for its own node ID;
3. if named, hands the datagram's data to the dispatcher along with the static command table;
4. if the dispatcher's result is non-zero, sends a reply datagram back to the sender.

`return_datagram` cuts the reply into frames of at most 8 bytes. Only the first frame carries the start bit, and sending stops at the first frame the driver refuses.

The loop's locals, the reassembly state and the static output buffer form the class `BootloaderLoop`:
- `Step` is one iteration of the `while (true)` loop;
- `Run` runs the loop over a finite sequence of environment answers;
- both are proved equal to the pure specification `Next` / `RunAll` on a `LoopState` value.

The loop's smaller loops are separate methods, each proved against its specification:
- `FeedBytes`: feeding a frame's bytes;
- `IsAddressed`: the destination scan;
- `ReturnDatagram`: the chunked send.

`WriteOutput` models the handlers' writes into the static `output_buf`, in place on an array.

The collaborators are oracles. The datagram codec and `protocol_execute_command` are function values in `Env`. The clock, the receive call and the driver's answers to sends arrive in a `Poll`. The codec's reassembly state is represented by the bytes fed since the last `can_datagram_start`. No byte layout or CRC is assumed.

**The goal-oriented planning domains of the strategy.**
- `RobotActions` (`robot_actions.dfy`) models `master-firmware/src/strategy/actions.h`: the `can_run` and `plan_effects` of five actions over `RobotState`.
- `RobotGoals` (`robot_goals.dfy`) models `master-firmware/src/strategy/goals.h`: the `distance_to` of four goals.
- `Strategy` (`strategy.dfy`) models `master-firmware/src/strategy.cpp`:
  - the `DebraState` record and its four actions;
  - the two goals;
  - the state writes of each `execute`, as the class method `Robot.Execute`;
  - the counting loop of `strategy_goto_avoid_retry`.

Each action's planned effect is proved to change nothing outside a declared write set (`Writes`). Each goal's distance is proved to read nothing outside a declared read set (`Reads`). Further lemmas connect actions to the goals they reach and follow whole plans.

Where the code and the design description disagree, the model follows the code:
- The timeout is disarmed by any complete and valid datagram, even one addressed to other nodes (bootloader.c:115-116).
- Handlers receive the configuration by pointer and may change it. The reply is sent from the configuration's ID as it stands after the command (bootloader.c:126-132).
- The command result is kept in the `uint8_t` variable `len`, so only its value modulo 256 decides whether and how much is replied (bootloader.c:95, 126, 130).

## Model

| member | source | states |
|---|---|---|
| `Bootloader.SelectConfig` | bootloader.c:78-85 | a configuration is loaded iff one of the two pages validates, and it is that page's record |
| `Bootloader.BootState` | bootloader.c:73-91 | the timeout starts armed iff `arg` differs from the no-timeout argument; page 1 is preferred, then page 2; with neither valid the loop never starts (halt); reassembly starts empty |
| `Bootloader.BootloaderLoop.constructor` | bootloader.c:73-91 | the object's initial state is exactly `Boot` of the boot argument and the two pages, with a fresh zeroed output buffer |
| `Bootloader.FindCommand` | bootloader.c:26-35 | a command index selects a handler iff some table entry carries that index, and the handler is that entry's |
| `Bootloader.CommandTableIsUnambiguous` | bootloader.c:26-35 | table indices are pairwise distinct, every entry is found by its own index, and exactly the indices 1 to 8 are known |
| `Bootloader.ReturnId` | bootloader.c:131 | the reply address is the received identifier with bit 7 cleared, truncated to 8 bits |
| `Bootloader.ReplyFramesShape` | bootloader.c:51-70 | a reply is cut into frames of 1 to 8 bytes; the first frame's ID is `source_id \| 0x80`, every later one's is plain `source_id` |
| `Bootloader.SendStopsAtFirstFailure` | bootloader.c:59-69 | the frames handed to the driver are a prefix of the reply; all but the last were accepted; the last was refused whenever the prefix is short; all are sent when none is refused |
| `Bootloader.ReturnDatagram` | bootloader.c:37-71 | the loop hands the driver exactly the reply frames up to and including the first refused one, for a datagram whose destination list holds only `dest_id` |
| `Bootloader.ReplyReassembles` | bootloader.c:59-66 | a receiver that restarts on the start bit and is fed every reply frame in order holds exactly the reply's wire bytes, for source IDs below 128 |
| `Bootloader.HighSourceIdBreaksReassembly` | bootloader.c:60 | with source ID 0x80 every frame carries bit 7, so a receiver keeps only the last frame of a two-frame reply |
| `Bootloader.FeedBytes` | bootloader.c:109-112 | all `len` payload bytes are fed, in order, after what was already received |
| `Bootloader.IsAddressed` | bootloader.c:117-124 | the scan finds a match (index differs from the list length) iff the node ID occurs in the destination list |
| `Bootloader.WriteOutput` | bootloader.c:126-128 | after the handler's writes, the output buffer holds the written bytes at its start and its old contents after them, never past its end |
| `Bootloader.Next` | bootloader.c:96-138 | one loop iteration keeps the output buffer at its fixed size |
| `Bootloader.BootloaderLoop.Step` | bootloader.c:96-138 | one iteration of the loop changes the state exactly as `Next` says |
| `Bootloader.BootloaderLoop.ProcessDatagram` | bootloader.c:114-137 | handling a complete datagram changes the state exactly as `OnDatagram` says |
| `Bootloader.BootloaderLoop.RunCommand` | bootloader.c:124-134 | dispatching changes the state as `OnCommand` says, and reports whether the command jumped to the application |
| `Bootloader.BootloaderLoop.Run` | bootloader.c:96-138 | running the loop over a sequence of polls changes the state exactly as `RunAll` says |
| `Bootloader.TerminalModesAreFinal` | bootloader.c:84-98 | once halted or in the application, an iteration changes nothing |
| `Bootloader.TimeoutJumpsToApplication` | bootloader.c:97-99 | an armed, expired timeout jumps to the application with the loaded configuration; otherwise only a jumping command reaches the application |
| `Bootloader.TimeoutNeverRearmed` | bootloader.c:116 | no iteration arms the timeout |
| `Bootloader.SentOnlyGrows` | bootloader.c:130-133 | an iteration only appends to the frames handed to the driver |
| `Bootloader.ReassemblyOfFrame` | bootloader.c:105-136 | a start bit restarts reassembly before the bytes are fed; an incomplete datagram keeps accumulating; any complete datagram restarts reassembly unless the command never returned |
| `Bootloader.ValidDatagramDisarmsTimeout` | bootloader.c:114-116 | any complete and valid datagram disarms the timeout, addressed or not |
| `Bootloader.NoCommandUnlessAddressed` | bootloader.c:114-128 | for an incomplete, invalid or unaddressed datagram, nothing the dispatcher does happens: configuration, output buffer, sent frames and mode are unchanged |
| `Bootloader.AddressedDatagramRunsCommand` | bootloader.c:124-133 | for an addressed datagram, the dispatcher's outcome is applied; a result that is 0 modulo 256 sends nothing; otherwise the reply holds the first `len` output bytes and goes to the sender's ID without bit 7 |
| `Bootloader.ResultOf256SendsNothing` | bootloader.c:95 | a command result of 256 truncates to 0 in `uint8_t len`, so no reply is sent |
| `Bootloader.TimeoutStaysDisarmed` | bootloader.c:116 | once disarmed, the timeout stays disarmed for the whole rest of any run |
| `Bootloader.RunOnlyAppendsFrames` | bootloader.c:130-133 | frames handed to the driver stay in the log for the rest of a run |
| `Bootloader.TerminalModesAreFinalForRuns` | bootloader.c:98 | after the jump to the application (or the halt) no later poll changes anything |
| `Bootloader.ArmedRunSawNoValidDatagram` | bootloader.c:114-116 | if the timeout is still armed at the end of a run, no iteration of that run completed a valid datagram |
| `RobotActions.PlanEffects` | master-firmware/src/strategy/actions.h:16-84 | each action's planned effect leaves every field outside its write set unchanged, including the other block-map entries |
| `RobotActions.IndexArmsSpec` | master-firmware/src/strategy/actions.h:10-20 | `IndexArms` can always run and its effect indexes the arms |
| `RobotActions.RetractArmsSpec` | master-firmware/src/strategy/actions.h:24-33 | `RetractArms` can run iff the arms are indexed; its effect retracts them |
| `RobotActions.PickupBlocksSpec` | master-firmware/src/strategy/actions.h:40-56 | `PickupBlocks(id)` can run iff arms are retracted, a lever is not full and the blocks are on the map; it fills the right lever if empty, else the left, and clears `blocks_on_map[id]` |
| `RobotActions.TurnSwitchOnSpec` | master-firmware/src/strategy/actions.h:59-71 | `TurnSwitchOn` can run iff arms are retracted; its effect deploys the arms and turns the switch on |
| `RobotActions.DeployTheBeeSpec` | master-firmware/src/strategy/actions.h:73-85 | `DeployTheBee` can run iff arms are retracted; its effect deploys the arms and the bee |
| `RobotActions.PickupFillsOneLever` | master-firmware/src/strategy/actions.h:47-53 | every runnable pickup fills exactly one more lever |
| `RobotActions.NoPickupWhenLeversFull` | master-firmware/src/strategy/actions.h:43 | with both levers full no pickup can run |
| `RobotActions.PickupsFillLevers` | master-firmware/src/strategy/actions.h:40-56 | a run of runnable pickups fills one lever each, so at most two pickups can follow one another |
| `RobotActions.PickupsThenNoMore` | master-firmware/src/strategy/actions.h:43-53 | after the pickups that fill the remaining levers, no pickup can run |
| `RobotGoals.DistanceTo` | master-firmware/src/strategy/goals.h:7-35 | a goal's distance is zero iff its condition holds: arms retracted, switch on, bee deployed, both levers full |
| `RobotGoals.DistanceReadsOnly` | master-firmware/src/strategy/goals.h:7-35 | each goal's distance depends on nothing but the fields it names |
| `RobotGoals.PickupCubesDistance` | master-firmware/src/strategy/goals.h:28-34 | the cube goal's distance is the number of levers still empty |
| `RobotGoals.TurnSwitchOnReachesSwitchGoal` | master-firmware/src/strategy/goals.h:14-18 | from any state where `TurnSwitchOn` can run, its effect meets the switch goal |
| `RobotGoals.DeployTheBeeReachesBeeGoal` | master-firmware/src/strategy/goals.h:21-25 | from any state where `DeployTheBee` can run, its effect meets the bee goal |
| `RobotGoals.ArmMovesAndInitGoal` | master-firmware/src/strategy/goals.h:7-11 | a runnable `RetractArms` meets the initial goal; `TurnSwitchOn` and `DeployTheBee` leave it at distance 1 |
| `RobotGoals.ActionKeepsGoal` | master-firmware/src/strategy/actions.h:16-84 | no action clears the switch, the bee or a full lever, so any action keeps the switch, bee and cube goals reached |
| `RobotGoals.ReachedGoalStaysReached` | master-firmware/src/strategy/goals.h:14-34 | once reached, the switch, bee and cube goals stay reached along every plan that can run |
| `RobotGoals.PickupsReachPickupCubesGoal` | master-firmware/src/strategy/goals.h:28-34 | the pickups that fill the remaining levers reach the cube goal |
| `Strategy.PlanEffects` | master-firmware/src/strategy.cpp:202-367 | each action's planned effect leaves every field outside its write set unchanged |
| `Strategy.ArmActionsSpec` | master-firmware/src/strategy.cpp:202-257 | `IndexArms` always runs and indexes the arms; `RetractArms` runs iff the arms are indexed and retracts them |
| `Strategy.CollectCylinderSpec` | master-firmware/src/strategy.cpp:280-290 | collecting runs iff arms are retracted; it adds one cylinder, wrapping from 2^32 - 1 to 0, and deploys the arms |
| `Strategy.DepositCylinderSpec` | master-firmware/src/strategy.cpp:356-367 | depositing runs only with retracted arms and a cylinder, so the decrement never wraps; it adds 10 to the score (while the score cannot wrap) and deploys the arms |
| `Strategy.DepositWithoutCylinderWraps` | master-firmware/src/strategy.cpp:364 | without the guard, depositing with no cylinder wraps the unsigned count to 2^32 - 1 |
| `Strategy.GoalsSpec` | master-firmware/src/strategy.cpp:417-429 | the game goal holds iff the score is positive and the initial goal (arms retracted) holds; the initial state meets neither |
| `Strategy.PlanCylinderBalance` | master-firmware/src/strategy.cpp:280-367 | along any runnable plan, deposits never exceed cylinders held plus collected, and the final count is start + collects - deposits |
| `Strategy.PlanScore` | master-firmware/src/strategy.cpp:361-366 | along any runnable plan, the score grows by 10 per deposit, modulo 2^32 |
| `Strategy.InitPlanReachesInitGoal` | master-firmware/src/strategy.cpp:195-257 | from the initial state retracting first cannot run, while indexing then retracting runs and reaches the initial goal |
| `Strategy.Robot.constructor` | master-firmware/src/strategy.cpp:195-200 | a fresh state has score 0, arms not indexed, arms deployed and no cylinder |
| `Strategy.Robot.Execute` | master-firmware/src/strategy.cpp:215-413 | a successful `execute` leaves exactly the planned effect; a failed approach only marks the arms deployed and returns false |
| `Strategy.GotoAvoidRetry` | master-firmware/src/strategy.cpp:164-182 | stops at the first success, makes at most `num_retries + 1` attempts when `num_retries >= 0` (exactly that many on failure), retries until success when negative, and returns the last attempt's result |

## Left out

- The datagram codec (`can_datagram_*`) and its CRC are not part of this model. Completeness, validity, the destination list, the data and the encoding are oracle functions of the bytes fed since the last start.
- `protocol_execute_command` and the command handlers are not part of this model. The dispatcher is an oracle that returns either a length, the bytes written and the new configuration, or a jump to the application. `FindCommand` gives only the table's index-to-handler meaning.
- The CAN driver is not part of this model. A receive is one optional frame per poll. The driver's 100 send retries and 1000-tick receive timeout happen inside it; the model sees only whether each reply frame was accepted.
- `timeout_reached`, `config_is_valid`, `config_read` and the page addresses become inputs: a flag per poll, and a validity flag plus a record per page. The configuration's layout beyond the node ID is not interpreted.
- The value of `BOOT_ARG_START_BOOTLOADER_NO_TIMEOUT` comes from boot_arg.h, which is not part of this model. The constant here is only compared for equality.
- `while (true)` runs forever. The model covers every finite prefix of the environment's answers (`Run`, `RunAll`). The `while(1)` on two invalid pages becomes the terminal mode `Halted`. The jump to the application becomes the terminal mode `Application`.
- Bootloader.WriteOutput: a handler that writes more than the 2560-byte output buffer is cut at the buffer's end; the handlers' own bounds checks are not part of this model.
- The encoder `can_datagram_output_bytes` is assumed to fill each 8-byte buffer until the encoding runs out (`Chunk`, `ReplyFrames`); its buffering is not part of this model.
- Received frames longer than 8 bytes are not excluded; they are fed in full, as the loop would feed `len` bytes.
- Bootloader.ReplyReassembles: holds only for source IDs below 128. `HighSourceIdBreaksReassembly` shows why.
- `goap::Distance`, `goap::Planner` and state.h are not part of this model. A distance counts unmet conditions. `RobotState` has only the fields the actions and goals use. The planner's search is not modelled, only the following of a given plan (`ApplyPlan`).
- RobotActions.PickupBlocksSpec: `blocks_id` must lie inside the block map. The C++ array access assumes this; the map's size comes from state.h.
- Strategy.Robot.Execute: arm trajectories, GPIO, sleeps, float geometry and the color choice of arm are left out. The outcome of the approach move is an input.
- Strategy.GotoAvoidRetry: with negative `num_retries` and no successful attempt the source loops forever; the model requires some attempt to succeed in that case. `strategy_goto_avoid` itself (path planning, beacon, waits) is an oracle. Overflow of the `int` counter is not modelled.
- Strategy.PlanCylinderBalance: stated only while the cylinder count cannot wrap past 2^32 - 1.
- Strategy.DepositCylinderSpec: the score increase is stated only where the `unsigned` score does not wrap; `PlanScore` states it modulo 2^32.
- master-firmware/src/commands.cpp, test/test.c, src/main.c, master-firmware/src/strategy_impl/actions.cpp and the robot parameter and motor helper headers are I/O, hardware or test harness code and are not part of this model.
