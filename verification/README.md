# Verification model

Dafny models of three parts of this repository, with proofs about every run, every input or every program of the
modelled kind. `dafny verify dfyconfig.toml` checks everything.

**SDRAM path.** `SdramController` is the clocked process of `wb_sdram` (registers, next-value functions, and a class
whose clock method assigns them one by one, the last assignment winning). `SdramDevice` is the chip of
`sdram_model.py`. `SdramSystem` clocks both on one data bus; every duration is a free parameter. On top: command
spacing (`SdramTiming`), refinement of a flat word memory (`SdramTracking`, `SdramRefinement`, `SdramFlatMemory`),
ack latency (`SdramLatency`), refreshes (`SdramRefresh`) and exactly which refresh intervals lose none (`SdramInterval`,
`SdramLosses`), power-up (`SdramPowerUp`), the bus master's wrapping bursts through all of it (`WbMaster`, `SdramBurst`),
and progress (`SdramProgress`). `WbArbiter` is the bus arbiter.

**Compiler back end.** `ExprMachine`, `ExprCodeGen`, `ExprParser` model the two-stack expression parser and the code
it emits for a one-accumulator machine; `ExprTree` shows which tree the parser builds, `ExprGrammar` that these are the
sums, terms and factors of a grammar, `ExprAccepts` that nothing else is accepted, `ExprCorrect` what the code computes
for any tree, `ExprSigns` which trees that is wrong for, `ExprCompare` what a comparison of two expressions compares.
`CondSyntax`, `CondJumps`, `CondCorrect`, `CondAccepts` do the same for short-circuit conditions and their labels.
`CodeMotion` is the move of code blocks with jump repair, `LastAccess` the last-access bookkeeping over whole runs of the
generator, `LoopScopes` which loop keeps a symbol, `CodeBuffer` the buffer that does it all in place. `LoopForms` runs
both compiled forms of a counted loop, with any body.

**Storage allocation.** `AllocBits`, `AllocSearch`, `Alloc` are the bitmap allocator with its two search hints;
`StoragePass` is the linear scan that gives symbols their cells.

Loops and objects that the sources update step by step are methods and classes here, each proved equal to a function on
values (or against the property itself, in the allocator and the storage pass); the lemmas are about those functions.

## What the proofs found

- `a + -b * c` is compiled as `(a - b) * c`. `ExprTree.Reading` says which tree is compiled for any written one, and
  `ExprSigns.MinusPlacedExactly` that exactly the trees with `ExprTree.MinusPlaced` are read as written in every
  arithmetic.
- `(x + y) * -z` is compiled as `-z * -z`. `ExprCorrect.Effective` says what is computed for any tree
  (`ExprCorrect.ReadingCompiled`). `ExprCorrect.Unstruck` is sufficient for the value of the reading, and
  `ExprSigns.StruckIsWrong` shows that this value is missed in some arithmetic whenever an operand that contains an
  operator is struck; with well placed minus signs it is the value of the tree as written. The condition is not exact:
  between the two lie operands that are themselves only negated names. `(-c) * -c` is struck and right
  (`ExprCorrect.StruckByEqual`), `(-c) * -d` is struck and computes `-d * -d`.
- `if (a + b > 5)` never takes its then part: the constant is loaded over the sum and compared with itself.
  `ExprCompare.ComparisonCompiled` gives, for any two expressions and any relation, exactly when the computed values
  reach the compare instruction, and what happens otherwise; `ExprCompare.GreaterThanConstant` is that case. Two computed sides
  never reach it.
- A counted loop over a named constant runs once, if it has a counter: comparing with the constant overwrites the
  counter in RESULT (`LoopForms.NamedCounter`).
- A counter loop loses rounds if the loop register still holds a small count. `LoopForms.CounterLoop` says exactly when
  for any body, `LoopForms.CounterLoopKept` how many rounds are left; `LoopForms.LeftoverRegister` is the smallest case.
- In the last round of a hardware loop the processor takes no jump at all (`LoopForms.BranchNotTaken`), so that form is for
  bodies without jumps only, as the compiler uses it.
- A hardware loop with count 0 runs its body once, as the counter form does, but leaves the loop register counting
  (`LoopForms.HardwareLoop`).
- A jump distance read back for code motion takes its sign from bit 7 of the distance, while the processor takes it
  from bit 9. `CodeMotion.DistanceRoundTrip` and `CodeMotion.Misread` give the distances that survive,
  `CodeMotion.MoveKeepsJumps` exactly which jumps survive a move, `CodeMotion.FarJumpLost` one that does not: 200 ahead
  inside its own block.
- Moving the set-up code of an outer loop before its body forgets that an inner loop keeps a symbol to its end; the
  symbol's cells may be reused inside the inner loop. `LastAccess.LoopEndKept` says exactly when the end is kept,
  `LastAccess.LoopEndLost` is a run in which it is not.
- A failed allocation of one cell sets the upper search hint to block 0x1FFFFFFF; `Alloc.FailureAndHint` says exactly
  which failures leave a usable hint.
- A refresh timer wrap that finds the previous refresh not yet taken up is lost. `SdramRefresh.RefreshConservation`
  accounts for every wrap. `SdramLosses.NeverLosesExactly` says for all timing constants that no run loses a refresh
  after its first idle cycle if and only if the refresh interval satisfies `SdramInterval.KeepsUp`. A longer interval is
  not always better: it may leave time for a second request before the wrap (`SdramInterval.LongerLoses`: nothing is lost
  at 13 and 16 cycles, at 14 and 15 something is). Below one refresh period every long run loses some, whatever is
  requested (`SdramRefresh.ShortIntervalLoses`). Lost or not, a REFRESH follows every wrap in bounded time
  (`SdramRefresh.WrapIsFollowed`).
- `dready_o` does not pulse for the last word of a read burst if the user holds `we_i` high and `en_i` low in the cycle
  after it (`SdramBurst.LastPulseLost`).
- The arbiter takes the bus away from a master that still uses it (`WbArbiter.ImpatienceBreaksGrant`), exactly when no
  requesting master is left that has not been passed over in the present round (`WbArbiter.GrantKeptExactly`). With
  patient masters it never does.
- The notes in `sdram_model.py` say the controller closes the row before every access. It does not: it keeps rows open,
  and the model follows the code.

## Assumptions

- qfp32 arithmetic is a set of uninterpreted functions, the same at compile time and on the processor. `+` and `*`
  commute; where minus signs occur, `a + -b = a - b`, `a - -b = a + b` and `-a = a * -1`.
- During an expression [a0] and [a1] do not point at its spill cells, and named cells are not changed by its code.
- In `CondCorrect` a comparison is an atom with a truth value that depends on its text alone; `ExprCompare` says when its
  code computes that. `<` on qfp32 is a strict total order.
- An undriven SDRAM data bus reads as any value, chosen anew each cycle. Bus words are four bytes.
- Durations of the SDRAM are numbers of clock cycles that fit the ranges the VHDL declares; ColBits is at most 10, as the
  VHDL asserts.
- The operands of a comparison in a condition are texts with matching brackets; `ExprAccepts` says which are expressions.

## Model

| member | source | states |
|---|---|---|
| SdramController.Controller.Clock | VHDL/wishbone/wb_sdram.vhd:264-488 | One clock edge assigns every register exactly the next value used in all proofs, last assignment winning. |
| SdramController.Controller.constructor | VHDL/wishbone/wb_sdram.vhd:264-287 | Reset puts every register at its reset value. |
| SdramController.Controller.StateMachine | VHDL/wishbone/wb_sdram.vhd:336-486 | The case over the states assigns the next state, wait counter and the state-dependent registers. |
| SdramController.Controller.CountTimers | VHDL/wishbone/wb_sdram.vhd:291-303 | Refresh, RAS and write timers count; a wrap makes a refresh due. |
| SdramController.Controller.ShiftReadPipe | VHDL/wishbone/wb_sdram.vhd:305-323 | Read markers shift, data is captured CAS-latency cycles after the command, the high half raises ack. |
| SdramControl.ControlStep | VHDL/wishbone/wb_sdram.vhd:241-488 | The control invariant (row registers, refresh flags, read pipe, wait counter) survives every cycle. |
| SdramSystem.RunControl | VHDL/wishbone/wb_sdram.vhd:241-488 | The control invariant holds in every reachable cycle. |
| SdramSystem.ClockSystem | VHDL/wishbone/wb_sdram.vhd:158-160 | Clocking controller and chip objects on the shared bus is one step of the system. |
| SdramDevice.Chip.Edge | VHDL/cocotb/sdram_model.py:76-124 | One iteration of the endless loop: deliver due reads, decode the command, update rows, memory and pending reads. |
| SdramTiming.GapStep | VHDL/wishbone/wb_sdram.vhd:298-303 | A cycle shortens an enforced gap by at most one; a command opens the full gap. |
| SdramTiming.GapClosed | VHDL/wishbone/wb_sdram.vhd:398-449 | No command is issued into a gap that forbids it. |
| SdramTiming.CommandSpacing | VHDL/wishbone/wb_sdram.vhd:336-484 | For all timing constants and all runs: RCD, RAS, write recovery, RP, RFC and MRD spacing between any two commands. |
| SdramTiming.RowHistory | VHDL/wishbone/wb_sdram.vhd:196-232 | By the pins: an open row in the registers was activated and not closed since; every other bank was closed, by a PRECHARGE with its bank number or with address bit 10, and not activated since. |
| SdramTiming.RowDiscipline | VHDL/wishbone/wb_sdram.vhd:210-224 | Columns are commanded only in the row the request needs, and that row is open (no column command has closed it by auto-precharge); row commands only with all banks closed. |
| SdramTiming.PinsAtRest | VHDL/wishbone/wb_sdram.vhd:184-232 | Lanes are masked and the data bus is driven by WRITE commands only. |
| SdramPowerUp.ModeIsSet | VHDL/wishbone/wb_sdram.vhd:95-96 | The mode register is set to burst length 1, sequential, and the CAS latency the controller uses. |
| SdramPowerUp.PowerUpCommands | VHDL/wishbone/wb_sdram.vhd:337-380 | Before it is first idle the controller has commanded one PRECHARGE, the configured number of REFRESHes, after these the mode register once, and nothing else. |
| SdramPowerUp.PowerUpEnds | VHDL/wishbone/wb_sdram.vhd:337-380 | The controller is first idle after exactly the computed number of cycles, with no row open. |
| SdramRefinement.NoContention | VHDL/wishbone/wb_sdram.vhd:226-235 | The controller never drives the bus while read data is driven or in flight. |
| SdramRefinement.BusCarries | VHDL/wishbone/wb_sdram.vhd:316-323 | What is captured is what the chip sends, what is stored is what the controller sends. |
| SdramRefinement.FlightStep | VHDL/cocotb/sdram_model.py:80-112 | The chip holds exactly the pending reads the controller's pipe markers stand for. |
| SdramRefinement.StoreEffect | VHDL/cocotb/sdram_model.py:113-123 | A cycle changes the chip's memory by exactly the selected lanes of the half word being written. |
| SdramRefinement.MemStep | VHDL/wishbone/wb_sdram.vhd:326-334 | The chip holds every accepted write, but for the part of the latched one still to be issued. |
| SdramRefinement.WordComplete | VHDL/wishbone/wb_sdram.vhd:316-323 | Ack for a read comes exactly when its high half arrives, and then the assembled word is its answer. |
| SdramRefinement.OwedStep | VHDL/wishbone/wb_sdram.vhd:316-334 | Owed acks stay in acceptance order: on the bus, in the pipe, being issued. |
| SdramFlatMemory.RefinementStep | VHDL/wishbone/wb_sdram.vhd:241-488 | The refinement invariant between system and bookkeeping survives every cycle. |
| SdramFlatMemory.RunRefinement | VHDL/wishbone/wb_sdram.vhd:241-488 | ... and holds in every run. |
| SdramFlatMemory.BusNeverContended | VHDL/wishbone/wb_sdram.vhd:226-235 | In every run write data never meets read data on the bus. |
| SdramFlatMemory.RunAccounted | VHDL/wishbone/wb_sdram.vhd:316-334 | In every run each accepted request is either acknowledged, in order, or still owed: none is dropped or doubled. |
| SdramFlatMemory.SameLocation | VHDL/wishbone/wb_sdram.vhd:163-164 | Two addresses name one location of the chip exactly if they agree modulo the memory size. |
| SdramFlatMemory.LocationOf | VHDL/wishbone/wb_sdram.vhd:163-164 | An address, modulo the memory size, is (row * banks + bank) * words per row + column. |
| SdramFlatMemory.AnswersLikeFlatMemory | VHDL/wishbone/wb_sdram.vhd:305-488 | Acks follow acceptance order; a read is answered with the flat memory after all earlier-accepted requests. |
| SdramFlatMemory.LatestWriteWins | VHDL/wishbone/wb_sdram.vhd:226-235 | A byte lane of the flat memory is that of the latest request selecting it. |
| SdramFlatMemory.UnwrittenIsZero | VHDL/cocotb/sdram_model.py:112-117 | A lane nobody wrote reads as zero. |
| SdramLatency.IssueStep | VHDL/wishbone/wb_sdram.vhd:398-472 | While a request is being issued its ranking measure falls in every cycle. |
| SdramLatency.RunOnTime | VHDL/wishbone/wb_sdram.vhd:316-472 | No owed ack is ever later than its bound. |
| SdramLatency.AckedInTime | VHDL/wishbone/wb_sdram.vhd:316-472 | Every request accepted up to cycle t is acknowledged by t plus a bound computed from the timing constants. |
| SdramRefresh.DebtStep | VHDL/wishbone/wb_sdram.vhd:291-296 | Over one cycle wraps, REFRESH commands, due and lost refreshes balance. |
| SdramRefresh.RefreshConservation | VHDL/wishbone/wb_sdram.vhd:291-296 | ... and over every run after power-up. |
| SdramRefresh.BusyStep | VHDL/wishbone/wb_sdram.vhd:398-484 | While the controller is busy the distance to the idle state falls in every cycle, whatever is requested. |
| SdramRefresh.RefreshLost | VHDL/wishbone/wb_sdram.vhd:291-296 | With the shortest interval the first idle cycle of every run loses a refresh. |
| SdramRefresh.ShortIntervalLoses | VHDL/wishbone/wb_sdram.vhd:291-296 | An interval shorter than one refresh with its idle and drain cycle loses refreshes in every long enough run, whatever is requested. |
| SdramRefresh.RefreshFollows | VHDL/wishbone/wb_sdram.vhd:382-484 | Every due refresh is taken up and its REFRESH command issued within the computed bound. |
| SdramRefresh.WrapIsFollowed | VHDL/wishbone/wb_sdram.vhd:291-296 | After every timer wrap behind power-up, lost or not, a REFRESH command comes within the bound. |
| SdramInterval.InHandStep | VHDL/wishbone/wb_sdram.vhd:291-488 | In every cycle, whatever is requested, the refresh due or to come stays in hand: it will have been taken up before the timer wraps. |
| SdramInterval.NoRefreshLost | VHDL/wishbone/wb_sdram.vhd:382-386 | With an interval that keeps up no refresh is lost after the first idle cycle, or any other, in any run. |
| SdramInterval.RoomyKeepsUp | VHDL/wishbone/wb_sdram.vhd:382-386 | An interval that leaves time for the longest wait before a refresh is taken up keeps up. |
| SdramInterval.LongerLoses | VHDL/wishbone/wb_sdram.vhd:291-296 | For one chip intervals of 13 and 16 cycles keep up, 14 and 15 do not. |
| SdramLosses.OneLoses | VHDL/wishbone/wb_sdram.vhd:325-334 | If one request is more than the interval bears, accepting it in the cycle of the wrap leads to a loss. |
| SdramLosses.SecondLoses | VHDL/wishbone/wb_sdram.vhd:457-472 | If a second one is, accepting it behind the columns of the first in the cycle of the wrap leads to a loss. |
| SdramLosses.NeverLosesExactly | VHDL/wishbone/wb_sdram.vhd:291-488 | For all timing constants: no run loses a refresh after its first idle cycle if and only if the interval keeps up. |
| SdramProgress.ReadyInTime | VHDL/wishbone/wb_sdram.vhd:173-175 | With a refresh interval that leaves room the controller is ready again within a computed bound, whatever is requested. |
| SdramProgress.HeldIsAccepted | VHDL/wishbone/wb_sdram.vhd:325-334 | A request held for that long is accepted. |
| WbMaster.MasterProcess.Clock | VHDL/wishbone/wb_master.vhd:64-110 | One clock edge of the burst state machine. |
| WbMaster.MasterProcess.Transfer | VHDL/wishbone/wb_master.vhd:81-106 | A pending cycle: next beat, ack, and the end of the transfer. |
| WbMaster.PendingExactly | VHDL/wishbone/wb_master.vhd:69-106 | Behind any slave: a burst is in progress from the cycle behind its enable to the last ack or an error. |
| WbMaster.CompletesExactly | VHDL/wishbone/wb_master.vhd:59-104 | complete_o is high exactly in the cycle behind the end of a burst, err_o exactly behind an error. |
| WbMaster.BusHeldExactly | VHDL/wishbone/wb_master.vhd:101-108 | cyc is high exactly during bursts and, behind one, as long as hold_i has been high in every cycle since its end; strobe and write enable are low then. |
| WbMaster.ReadPulses | VHDL/wishbone/wb_master.vhd:61-105 | The register behind dready_o is set exactly by acks of and errors in read bursts, and dout_o then holds the word acknowledged. |
| WbMaster.BeatOffset | VHDL/wishbone/wb_master.vhd:83 | Beat i addresses the word i further on, wrapped inside the aligned block of the burst. |
| WbMaster.BeatsDistinct | VHDL/wishbone/wb_master.vhd:83 | The 2^k beats of a burst are 2^k different words. |
| WbMaster.SameBlock | VHDL/wishbone/wb_master.vhd:83 | Bursts from two words of one aligned block visit the same words. |
| SdramBurst.RunWaits | VHDL/wishbone/wb_master.vhd:84-106 | The master waits for exactly the acks the controller owes it, in every run. |
| SdramBurst.BurstStep | VHDL/wishbone/wb_master.vhd:80-106 | Over one cycle a burst in progress has presented, sampled and counted exactly what it should. |
| SdramBurst.BusyBurst | VHDL/wishbone/wb_master.vhd:69-106 | When a burst ends all its beats were accepted, with the words sampled at the dready pulses; read data went through the register behind dready_o as acknowledged. |
| SdramBurst.WriteBurstStores | VHDL/wishbone/wb_master.vhd:42-111 | A finished write burst has stored the word of each dready pulse at its beat's address. |
| SdramBurst.ReadBurstReturns | VHDL/wishbone/wb_master.vhd:42-111 | The words on dout_o at the dready_o pulses of a read burst are the memory's words at its beats' addresses in order: all of them exactly if we_i is low or en_i high in the cycle after the burst, otherwise all but the last. |
| SdramBurst.BurstCompletes | VHDL/wishbone/wb_master.vhd:104 | complete_o pulses once for each burst, in the cycle in which it has ended and not while it is in progress. |
| SdramBurst.LastPulseLost | VHDL/wishbone/wb_master.vhd:46-50 | With we_i high and en_i low in that cycle the last word is on dout_o, but dready_o stays low. |
| SdramBurst.BurstRoundTrip | VHDL/wishbone/wb_master.vhd:42-111 | A write burst, then a read burst from any start word of the block, returns the written words at its dready_o pulses in wrapped order, the last one under the condition above, for every interleaving of stalls and refreshes. |
| SdramProgress.BurstEnds | VHDL/wishbone/wb_master.vhd:80-106 | Every burst ends within a bound computed from its length and the timing constants. |
| WbArbiter.ArbiterProcess.Clock | VHDL/wishbone/wb_ixs_arbiter.vhd:34-71 | The priority pick and one clock edge of grant, validity and mask. |
| WbArbiter.PickFrom | VHDL/wishbone/wb_ixs_arbiter.vhd:63-76 | The pick is the lowest requesting master not masked in this round. |
| WbArbiter.KeptStep | VHDL/wishbone/wb_ixs_arbiter.vhd:44-57 | A connected, still requesting master leaves somebody eligible, so the round does not end under it. |
| WbArbiter.MaskIsHistory | VHDL/wishbone/wb_ixs_arbiter.vhd:44-57 | A master is masked exactly if in the present round another one was picked while it was connected. |
| WbArbiter.GrantKeptExactly | VHDL/wishbone/wb_ixs_arbiter.vhd:42-57 | In every run a connected, requesting master stays connected if and only if some requesting master has not been passed over in the present round. |
| WbArbiter.GrantIsKept | VHDL/wishbone/wb_ixs_arbiter.vhd:42-57 | If masters keep requesting until served, a connected master stays connected while it requests. |
| WbArbiter.ImpatienceBreaksGrant | VHDL/wishbone/wb_ixs_arbiter.vhd:55-57 | Without that, a run in which a grant in use is withdrawn. |
| WbArbiter.GrantsStep | VHDL/wishbone/wb_ixs_arbiter.vhd:48-57 | The grants another master may still get while one waits go down with every grant. |
| WbArbiter.AtMostTwice | VHDL/wishbone/wb_ixs_arbiter.vhd:40-79 | While one master waits no other is newly granted more than twice. |
| WbArbiter.NobodyStarves | VHDL/wishbone/wb_ixs_arbiter.vhd:40-79 | A master that keeps requesting is connected before 2n + 2 cycles have passed in which nobody holds the bus. |
| ExprCodeGen.Emitter.InstrMov | Assembler/CodeGen.cpp:325-432 | Moves go by way of RESULT where the machine demands it; nothing else is emitted. |
| ExprCodeGen.Emitter.PreloadConstValue | Assembler/CodeGen.cpp:75-88 | A constant is loaded into a fresh cell by code moved to the front of the expression. |
| ExprCodeGen.Emitter.InstrOperation | Assembler/CodeGen.cpp:208-323 | The emitted code is that of the case analysis: preloads, operand swap, spill, load of the first operand. |
| ExprCodeGen.Emitter.InstrUnaryNeg | Assembler/CodeGen.cpp:434-448 | Negation by way of RESULT. |
| ExprCodeGen.Emitter.InstrCompare | Assembler/CodeGen.cpp:494-547 | Negation and operator decide which operand goes to RESULT; the other one gets a cell by way of RESULT if it has none. |
| ExprMachine.FreshCell | Assembler/CodeGen.cpp:64-73 | Writing a cell the code does not use commutes with the code. |
| ExprMachine.ResultOverwritten | Assembler/CodeGen.cpp:75-88 | Code that writes RESULT before reading it does not depend on it. |
| ExprCorrect.PreloadCorrect | Assembler/CodeGen.cpp:75-88 | A hoisted load changes nothing but its own cell, and RESULT only if nothing had been computed. |
| ExprCorrect.OperateCorrect | Assembler/CodeGen.cpp:208-323 | Code for a op b leaves exactly that value in RESULT and every other stacked operand as it was. |
| ExprParser.Parse | Assembler/RTParser.cpp:347-498 | The parser's outer loop over operands computes the parsing function used in the proofs. |
| ExprParser.Reductions | Assembler/RTParser.cpp:390-473 | ... and the inner loop its reductions, with brackets, folding and minus signs. |
| ExprGrammar.BracketedExactly | Assembler/RTParser.cpp:325-340 | The trees printed without further brackets are exactly the sums of terms of factors, + and - making sums, * and / terms, each grouping from the left. |
| ExprGrammar.TokensCompiled | Assembler/RTParser.cpp:325-498 | Any row of operands and operators is compiled as such a sum: the last term is applied to the sum of what precedes it, a term is multiplied and divided from the left. |
| ExprGrammar.SignedTokensCompiled | Assembler/RTParser.cpp:347-498 | ... and with minus signs before operands the value is that of the effective tree of the sum's reading. |
| ExprAccepts.AcceptedExactly | Assembler/RTParser.cpp:347-498 | A token sequence is accepted if and only if it begins with a sum of the grammar behind which neither an operator nor an opening bracket follows. |
| ExprTree.ParsesTree | Assembler/RTParser.cpp:347-498 | Parsing a printed tree compiles its reading, whatever is pending before and follows it. |
| ExprTree.ParsesGraft | Assembler/RTParser.cpp:411-425 | A minus sign right behind + or - is merged with it before anything else binds. |
| ExprTree.ReadingMeans | Assembler/RTParser.cpp:411-425 | With every such minus sign applying to a whole operand the reading has the value of the written tree. |
| ExprCorrect.CompileShape | Assembler/RTParser.cpp:475-490 | Compiling a tree leaves the operand stack as it was, but for a RESULT moved to a spill cell; constants fold. |
| ExprCorrect.PushCorrect | Assembler/RTParser.cpp:482-490 | Stacking an operand first saves a value still pending in RESULT. |
| ExprCorrect.ReduceCorrect | Assembler/RTParser.cpp:417-454 | Reducing an operator keeps every other stacked operand and yields the operation's value. |
| ExprCorrect.CompileCorrect | Assembler/RTParser.cpp:347-498 | For every tree: the result is the effective tree's value; all stacked operands keep theirs, but for one waiting in RESULT that a negation strikes, which takes on the negation's. |
| ExprCorrect.ReadingCompiled | Assembler/RTParser.cpp:347-498 | Every written tree is parsed to its end; from any machine state its code computes the value of its reading with struck operands replaced. No condition on signs. |
| ExprCorrect.ExpressionCompiled | Assembler/RTParser.cpp:347-498 | ... which is the value of the tree as written if its minus signs are placed so and no operand is struck. |
| ExprCorrect.PlainTreeCompiled | Assembler/RTParser.cpp:347-498 | Any tree over + - * /, printed with the brackets the grammar of ExprGrammar needs, is compiled to its value. |
| ExprCorrect.BracketsMean | Assembler/RTParser.cpp:325-340 | Adding brackets makes any tree printable and keeps its value. |
| ExprGrammar.NoNeedlessBrackets | Assembler/RTParser.cpp:325-340 | ... and adds none to a tree that is a sum of the grammar already. |
| ExprCorrect.MinusBeforeProduct | Assembler/RTParser.cpp:411-425 | A concrete expression that is compiled to a wrong value because + and - merge with a minus sign. |
| ExprCorrect.NegationOverwrites | Assembler/RTParser.cpp:457-468 | l * -x with l computed in RESULT is compiled to -x * -x, for every l, x and what follows. |
| ExprCorrect.StruckByEqual | Assembler/RTParser.cpp:457-468 | (-x) * -x is compiled right although its left operand is struck. |
| ExprSigns.MinusPlacedExactly | Assembler/RTParser.cpp:411-425 | A written tree is read as written in every lawful arithmetic and state if and only if its minus signs are well placed. |
| ExprSigns.StruckIsWrong | Assembler/RTParser.cpp:457-468 | If an operand that contains an operator is struck, there is a lawful arithmetic in which the code misses the value of the reading, and that of the tree as written too if its minus signs are well placed. |
| ExprCompare.OperatorRead | Assembler/RTParser.cpp:500-535 | Each of == != < <= > >= is read as a relation of mode and operand order that means the same. |
| ExprCompare.OnlyOperators | Assembler/RTParser.cpp:500-535 | ... and nothing else is. |
| ExprCompare.LeftOperandFirst | Assembler/RTParser.cpp:604-640 | The code of a comparison begins with the whole code of its left operand: constants of the right one are not hoisted into it. |
| ExprCompare.CompileGrown | Assembler/RTParser.cpp:347-498 | Compiling an expression changes nothing but RESULT and fresh spill cells. |
| ExprCompare.ComparesValues | Assembler/CodeGen.cpp:494-547 | RESULT and the cell hold the values computed for both operands if those are comparable; otherwise they hold the same value. |
| ExprCompare.ComparisonCompiled | Assembler/RTParser.cpp:604-640 | The instruction behind a comparison of any two written expressions runs exactly if the relation, negated if asked, holds between the values computed for them (those of the effective trees of their readings), provided these are comparable; otherwise exactly for == and <=. |
| ExprCompare.GreaterThanConstant | Assembler/RTParser.cpp:604-640 | A computed value is never greater than a constant: the jump to the else part is always taken. |
| CondSyntax.GroupRecognised | Assembler/RTParser.cpp:544-571 | The look-ahead tells a bracketed condition from a comparison that starts with a bracket. |
| CondJumps.JumpEmitter.GetLabelId | Assembler/CodeGen.cpp:1079-1095 | Hands out the highest free of 31 label ids, or fails. |
| CondJumps.JumpEmitter.ReplaceLabel | Assembler/CodeGen.cpp:1133-1147 | Every goto of one label becomes one of the other, the id is given back. |
| CondJumps.JumpEmitter.DeleteLabel | Assembler/CodeGen.cpp:1106-1131 | Every goto of the label gets its relative distance, the id is given back. |
| CondJumps.ParseIfExp | Assembler/RTParser.cpp:537-645 | The loop over the elements of one bracket level, recursive in brackets, computes the parsing function of the proofs. |
| CondCorrect.ResolveCode | Assembler/CodeGen.cpp:45-55 | Resolving a label inside a level's code is emitting the code with that way out known. |
| CondCorrect.ParsesLevel | Assembler/RTParser.cpp:537-645 | A printed level is accepted exactly if each level has one operator and labels suffice; then its jump code is emitted. |
| CondCorrect.LevelLeads | Assembler/RTParser.cpp:537-645 | A level's code goes on at the way out its truth demands, after exactly the short-circuit comparisons. |
| CondCorrect.ConditionCompiled | Assembler/RTParser.cpp:537-645 | The code reaches the then-position exactly if the condition is true and the else-label exactly if false, evaluating just the short-circuit comparisons in order; mixed operators are rejected. |
| CondAccepts.AcceptedExactly | Assembler/RTParser.cpp:537-645 | A token sequence is accepted if and only if it begins with a condition with one operator in each bracket level, nested within the labels, and a closing bracket. |
| CondAccepts.NestingLimit | Assembler/CodeGen.cpp:1079-1095 | With 31 labels, two of them in use, that is a nesting of at most 14 brackets. |
| CodeMotion.DistanceRoundTrip | Assembler/CodeGen.cpp:158-168 | A distance is executed as written exactly if it fits ten bits, and read back as written exactly if its bit 7 agrees with its sign, in range. |
| CodeMotion.Misread | ProcessorSim/SLProcessor.cpp:299-301 | The assembler reads a field as the processor executes it exactly for those distances; otherwise it is off by 512. |
| CodeMotion.MoveKeepsJumps | Assembler/CodeGen.cpp:1194-1305 | After a move every instruction is at its new place. A jump that does not cross is executed to the right place if and only if it stays in its block and seems to (or the needless repair changes nothing), or leaves it with a readable distance and an encodable new one. |
| CodeMotion.NearJumpsKept | Assembler/CodeGen.cpp:1194-1305 | Distances in -128..127 before and after the move are enough. |
| CodeMotion.FarJumpLost | Assembler/CodeGen.cpp:1242-1256 | A jump 200 ahead inside its own block goes to 688 instead of 1210 when the block moves up by 10. |
| CodeMotion.PlacesPermute | Assembler/CodeGen.cpp:1204-1225 | The new places are a permutation, undone by the opposite move. |
| CodeBuffer.Buffer.RebaseCode | Assembler/CodeGen.cpp:1242-1266 | Jumps that seem to leave a moved block are repaired in place, last accesses follow the walk. |
| CodeBuffer.Buffer.Exchange | Assembler/CodeGen.cpp:1206-1225 | The three copies by way of the free buffer exchange the two neighbouring blocks. |
| CodeBuffer.Buffer.MoveCodeBlock | Assembler/CodeGen.cpp:1194-1240 | The whole move, in both directions; moving a suffix back is the MoveBack operation of the runs. |
| CodeBuffer.Buffer.WriteCode | Assembler/CodeGen.cpp:1154-1192 | An emitted access becomes its symbol's last access, or is kept by the loop it belongs to; all else stays. |
| CodeBuffer.Buffer.CreateLoopFrame | Assembler/CodeGen.cpp:724-737 | A loop begins and keeps nothing yet; at most six at a time. |
| CodeBuffer.Buffer.RemoveLoopFrame | Assembler/CodeGen.cpp:739-749 | The end of a loop becomes the last access of all it kept, and of nothing else. |
| LastAccess.AlwaysCovered | Assembler/CodeGen.cpp:1154-1192 | In every run of emissions, suffix moves and loop frames each access is at or before its symbol's last access, or an active loop keeps the symbol. |
| LastAccess.BoundedOutsideLoops | Assembler/CodeGen.cpp:739-749 | With all loops ended no access is behind its symbol's last access. |
| LastAccess.OutsideLoopsLargest | Assembler/CodeGen.cpp:1154-1192 | In every run a symbol not accessed in a loop that keeps it has exactly the address of its last access recorded, and nothing if it is not accessed. |
| LoopScopes.KeptExactly | Assembler/CodeGen.cpp:1165-1177 | In every run an open loop keeps a symbol if and only if, since it was opened, an access was emitted in it to a symbol that was created at its depth and thus outside of it, or if symbols are always kept, to one created in it while it was innermost. |
| LoopScopes.KeptToEnd | Assembler/CodeGen.cpp:739-749 | When a loop ends, its end becomes the last access of exactly the symbols kept. |
| LoopScopes.AccessKept | Assembler/CodeGen.cpp:1165-1177 | An access in a loop to a symbol created outside of it puts the symbol's last access at the end of the outermost loop it was not created in. |
| LoopScopes.StaysBehind | Assembler/CodeGen.cpp:1154-1192 | Until code is moved, later operations do not take a last access back to an earlier address. |
| LoopScopes.LoadNeverReleased | Assembler/CodeGen.cpp:1179-1185 | Taking a symbol's address records it as accessed behind every address. |
| LoopScopes.NeverLasts | Assembler/CodeGen.cpp:1154-1192 | That lasts exactly until an access no loop keeps, or the end of a loop that keeps the symbol. |
| LastAccess.MovedLargest | Assembler/CodeGen.cpp:1258-1262 | A suffix move carries the largest address of an access along. |
| LastAccess.LoopEndKept | Assembler/CodeGen.cpp:1258-1262 | A symbol kept to the end of a loop is still kept to that end after a move if and only if an access to it goes behind the end, or none is moved and the recorded address is behind the end. |
| LastAccess.LoopEndLost | Assembler/RTParser.cpp:728-735 | A run in which it is not: a symbol of an outer loop read in an inner one. |
| LoopForms.CounterLoop | Assembler/RTParser.cpp:722-745 | With any body that runs to its end, the counter form executes it max(1, n) times if and only if the loop register suppresses none of the jumps back. |
| LoopForms.CounterCut | ProcessorSim/SLProcessor.cpp:378-381 | The first suppressed jump back ends the loop: the body has been executed that often. |
| LoopForms.CounterLoopKept | ProcessorSim/SLProcessor.cpp:497-505 | If the body leaves the register alone: max(1, n) times if and only if the register is clear or has room for that; otherwise as often as it has room for. |
| LoopForms.LeftoverRegister | ProcessorSim/SLProcessor.cpp:378-381 | With 1 in the loop register a loop with count 2 is executed once. |
| LoopForms.NamedCounter | Assembler/RTParser.cpp:728-744 | With a named constant as count there is exactly one round, which is right if and only if the count is at most 1. |
| LoopForms.HardwareLoop | ProcessorSim/SLProcessor.cpp:666-670 | The loop-instruction form executes its body max(1, n) times, n being the count without its sign, whatever the register was; the register ends clear if n > 0 and wound up otherwise. |
| LoopForms.LoopExecutes | Assembler/RTParser.cpp:716-745 | For every straight-line body both forms execute it max(1, n) times, the counter form if and only if the register is clear or has room. |
| LoopForms.BranchingLoop | Assembler/RTParser.cpp:722-745 | The same for counter loops around any code that tests and jumps ahead inside itself. |
| LoopForms.BranchesTaken | ProcessorSim/SLProcessor.cpp:378-381 | Such code computes what it does with a clear loop register, unless the register says it is the last round of a hardware loop. |
| LoopForms.BranchNotTaken | ProcessorSim/SLProcessor.cpp:378-381 | In that round a jump ahead is not taken: what it should skip is executed. |
| LoopForms.HardwareInCounter | Assembler/RTParser.cpp:716-745 | A counter loop around a hardware loop executes the inner body max(1, n) * max(1, m) times, whatever the register was; either count may be in a cell the loops leave alone. |
| LoopForms.CounterInCounter | Assembler/RTParser.cpp:716-745 | A counter loop around a counter loop does so from a clear register, and is a body of the same kind again, so to any depth. |
| AllocBits.Log2Bit | Assembler/Alloc.h:159-166 | log2 is one more than the number of the highest bit set. |
| AllocBits.MarkBits | Assembler/Alloc.h:139-151 | Masks set and clear exactly the bits of a run. |
| AllocSearch.NoneUpTo | Assembler/Alloc.h:118-136 | Jumping ahead over a failed run skips no feasible start. |
| Alloc.Allocator.AllocateFrom | Assembler/Alloc.h:107-157 | Returns what a plain block-by-block search returns and marks exactly that run; on failure nothing changes. |
| Alloc.SearchIsLowest | Assembler/Alloc.h:107-157 | That search finds the first candidate start with a free run behind it, and fails only if there is none. |
| Alloc.HintFindsSame | Assembler/Alloc.h:43-60 | A search from the first hint finds what a search of the whole bitmap finds. |
| Alloc.AllocatedHint | Assembler/Alloc.h:57-61 | The first hint, advanced by an allocation, skips only blocks in which no allocation can start. |
| Alloc.ReleasedHint | Assembler/Alloc.h:98-101 | ... and so does the hint after a release. |
| Alloc.WalksStop | Assembler/Alloc.h:50-61 | The walks to the next block that is empty, or not full, stop at the first such block. |
| Alloc.FailureAndHint | Assembler/Alloc.h:63-67 | Exactly which failed allocations leave the upper hint usable. |
| Alloc.Allocator.Allocate | Assembler/Alloc.h:36-70 | Adds exactly the free cells of one new run to the live allocations, which stay disjoint and match the bitmap and the used-cell count; an allocation from above lies behind the last block in use; both hints get their values. |
| Alloc.Allocator.Release | Assembler/Alloc.h:72-104 | Removes exactly one live allocation's cells; both hints stay right. |
| Alloc.AllReleased | Assembler/Alloc.h:72-104 | With nothing live any more the bitmap is empty, in whatever order things were released. |
| StoragePass.Placer.PlaceSymbol | Assembler/CodeGen.cpp:785-793 | A symbol gets cells no live symbol has, if and only if the search for its kind finds any. |
| StoragePass.Placer.Visit | Assembler/CodeGen.cpp:778-815 | One instruction: allocate at the first reference, patch, release behind the last access; it fails only for want of room. |
| StoragePass.HistoryThroughout | Assembler/CodeGen.cpp:757-817 | A symbol stays placed between any two instructions that refer to it. |
| StoragePass.ApartStep | Assembler/CodeGen.cpp:757-817 | Placed symbols share no cell and none reaches the reserved ones. |
| StoragePass.PatchedAccesses | Assembler/CodeGen.cpp:796-807 | So each access names a cell of its own symbol, at its offset from the base, and no reserved one; accesses to different symbols placed at one instruction name different cells; address loads load the base. |
| StoragePass.Placer.StorageAllocationPass | Assembler/CodeGen.cpp:757-817 | If all allocations succeed: one base address per symbol for its whole live range, disjoint cells at every instruction, reserved cells untouched, cells freed behind the last use, every access patched to its offset from that base, inside its own symbol and apart from all others. It fails only if the reserved cells do not fit, an array with a fixed address is declared, or an instruction wants a symbol for which the search finds no room among exactly the cells then held. |

## Left out

- SDRAM reset in the middle of a run: runs start at reset and are never reset again.
- SDRAM bus errors and `wb_master`'s error exit in bursts: the controller never raises err; the exit is modelled in `WbMaster` only.
- `wb_cache`, the interconnect decoder, clock generation and board files: other components.
- Routing of the granted master's signals by the arbiter: a multiplexer without state.
- ExprParser.Parse: starts from tokens and declared names; function calls, intrinsics, struct references, array bases, loop indices and address increments are not operands of the model, and the 1024-entry stacks and the 4096-instruction buffer do not fill up.
- ExprCorrect.ExpressionCompiled: one direction; `ExprSigns` has the converses.
- ExprSigns.StruckIsWrong: one direction. Where a struck operand is itself only a negated name, whether its value changes can depend on the laws of the arithmetic.
- ExprCodeGen.Emitter.InstrMov: destinations are RESULT and spill cells, as expressions need them; other cells, memory and the address registers are not modelled.
- ExprCodeGen.Emitter.InstrOperation: the four arithmetic operators on scalar operands; array bases, address increments and the remaining processor operations are not covered.
- ExprCodeGen.Emitter.InstrCompare: array bases are not operands.
- ExprCodeGen.Emitter.MoveCodeBlock: expression code holds no jumps, so this is the plain exchange of blocks; jump repair is in `CodeMotion`.
- CondCorrect.ConditionCompiled: comparisons are atoms here, see `ExprCompare`. Distances are unbounded integers.
- CondJumps.JumpEmitter.DeleteLabel: loads of a label's absolute address are not patched; conditions emit none.
- CodeMotion.MoveKeepsJumps: absolute code addresses loaded as constants and jumps that cross between the blocks are not covered.
- CodeBuffer.Buffer.RebaseCode: absolute addresses in load instructions and array declaration positions are not carried along.
- CodeBuffer.Buffer.MoveCodeBlock: neither are they here, and the moved-code callback is not called.
- CodeBuffer.Buffer.WriteCode: inline expansion and the recorded code of inline functions are not emitted this way.
- LoopForms.CounterLoop: bodies that leave the loop by `break` or change the count or the counter are excluded. A constant load is one instruction, and the processor executes one instruction at a time; pipeline stages are left out.
- LoopForms.HardwareInCounter: the inner loop is the whole body of the outer one, and its count is a constant or in a cell that neither loop changes; counts computed anew in each round are not covered.
- LoopForms.CounterInCounter: likewise.
- Alloc.Allocator.Allocate: `alignBlock` only chooses where the search starts; no alignment is promised.
- Alloc.Allocator.Release: releases match allocations, or hit an unused address; after a failed allocation that spoilt the upper hint (`Alloc.FailureAndHint`) nothing is promised.
- StoragePass.Placer.StorageAllocationPass: what the pass does after a failed allocation is not modelled, and base addresses are not cut to 16 bits; offsets are cut to 9 bits as in the instruction.
- Encodings of instructions, constant-load splitting, the lexer, error texts, line mapping, debugger and host tools: finite or plumbing.
