# A verified model of pktbaffle and pkttap's packet ring

pktbaffle compiles libpcap-style filter expressions to classic BPF or to an XDP
eBPF program; pkttap reads packets from a TPACKET_V3 ring. This project models
the parts where most can go wrong and proves what they are for:

- **Classic pipeline.** The code generator with path facts, guard elision, guard
  hoisting in front of `or`, X-register clobbering and jump back-patching; the
  three-pass optimizer; the interpreter. Result: a compile that succeeds yields
  a program whose outcome on every packet, faults included, is the expression's
  left-to-right meaning with the shared guards in front of each `or` and without
  tests for the type of a second tag. This holds for every expression, `vlan`
  under `and`, `or` and `not` included, except two kinds: a `vlan` behind a tag
  that shifts offsets again, and a port test after an `or` that leaves a transport
  offset from behind a tag. Where no tag is tested behind a tag and no `or` hoists
  a guard in front of an arm that begins with `vlan` (else the exact frames are
  given), the program never gives a wrong verdict and gives the right one whenever
  no test reads past the end of the packet; and without `or` it agrees with the
  plain three-valued meaning.
- **eBPF back end.** The generator with its work stack and patch lists never
  panics and yields the symbolic compile's program. Unless a byte access has an
  offset beyond what its 16-bit and 32-bit fields hold (the exact offsets are
  given), that program is memory safe on every packet, on either byte order, and
  its verdict is the boolean meaning of the tree.
- **Ring reader.** Ownership, in-order loss-free delivery, bounds and
  termination, over all interleavings of kernel and reader.
- **Parser.** The explicit-stack expression parser against the recursive
  grammar, and the checked offset evaluator against unbounded arithmetic.

`dafny verify dfyconfig.toml` checks everything.

## How the model is laid out

| files | what they hold |
|---|---|
| Words, Results, Bpf, Vm | machine words, instructions, the interpreter |
| Threading, Dataflow, Removal, Optimizer | the optimizer passes and `dedup_loads` |
| Ast, Meaning, Lengths | expressions; each primitive as a formula over header fields; which packets are long enough |
| Guards, Hoisting | path facts, required guards, the memoised analysis; the meaning with hoisted guards |
| Fragments, Emission, CheckProofs, PrimProofs, PortProofs, AccessProofs, ShapeProofs, PortFacts, EmitProofs | code with symbolic pending jumps, what every primitive emits, and that it decides its formula |
| Backpatch, PatchProofs, BuildProofs, Finishing | patch lists and their resolution; refinement of the symbolic code |
| ClassicCodegen, CompileProofs, VlanProofs | the generator as a class with its work stack, `compile`, the end-to-end theorems |
| Deviations, TagDeviations, TagPorts | where programs do something else than what is documented or written, and on exactly which frames |
| EbpfVm, EbpfCode, EbpfEmit, EbpfProofs, EbpfPrims, EbpfTheorem, EbpfFinal, EbpfReach | the eBPF machine, emission, safety and exactness; which loads are safe and right |
| EbpfBuild, EbpfCodegen | eBPF patch lists; that generator as a class with its work stack |
| Ring, RingProtocol | ring geometry, frame headers, the reader class; the two-party protocol |
| Tokens, ExprParser, Spellings, Integers, OffsetParser | the parser |

The meaning of an expression never mentions code: a primitive is a formula
(`Meaning.PrimFormula`) over header fields, read three-valued (`Eval`, an
unreadable field aborts) or two-valued (`Sat`), and expressions combine them
(`Eval3`, `Matches`; `EvalHoisted` with the guards of each `or` in front).

Choices made in the model:

- Instructions are canonical opcodes only, as a datatype.
- `u32` offset arithmetic is `Off(n) = n mod 2^32`; byte-access offsets are
  0 to 2^31 - 1, since the parser rejects negative ones.
- `Err` is a reported compile error and `Panic` a failed `expect` or an
  out-of-range index; the theorems show that `Panic` does not occur.
- The guard memo is keyed by the expression itself where the source uses its
  address: equal expressions have equal guard sets.
- The order inside a patch list is not that of the source; all slots of a list
  are resolved to one target, so the order does not matter.
- Ring words are little-endian, as on the common hosts of that back end.
- Where the code and its documentation, or what is written, differ the model
  follows the code, and the exact inputs are given: `mpls <label>` on the classic
  back end, alone or among other tests (`Deviations.MplsLabelIgnoredOnUnicast`,
  `Deviations.MplsConjunctsExactly`), `or` between arms of which one begins with
  `vlan` (`TagDeviations.TaggedOrExactly`), tag tests behind a tag
  (`TagDeviations.InnerTagTestsExactly`), a port test after one behind a tag
  (`TagPorts.TagPortThenExactly`), eBPF comparisons with constants of 2^31 and more
  (`EbpfFinal.SafeConstantsExactly`), eBPF byte accesses past offset 32767
  (`EbpfReach.LoadSafeExactly`, `EbpfReach.LoadRightExactly` and the same for
  transport loads), and an offset expression that nests too deep, whose last
  charge stays on the depth counter (`OffsetParser.Parser.NestedLevel`).

## Model

| member | source | states |
|---|---|---|
| `Vm.Inner` | pktbaffle/src/vm.rs:20-114 | the interpreter loop returns the outcome of the big-step semantics, faults included |
| `Threading.FinalTargets` | pktbaffle/src/optimizer.rs:65-77 | the backward sweep computes the end of every `ja` chain |
| `Threading.ThreadJumps` | pktbaffle/src/optimizer.rs:65-93 | in place, every jump goes to the end of its chain or, where 8 bits do not suffice, stays |
| `Threading.ThreadingPreservesExec` | pktbaffle/src/optimizer.rs:60-93 | threading changes no outcome from any point of any program whose chains fit 32 bits |
| `Threading.InRangeChainsFit` | pktbaffle/src/optimizer.rs:20-22 | every fully patched program meets that condition |
| `Threading.UnpatchedChainsCanWrap` | pktbaffle/src/optimizer.rs:20-22 | a program with an out-of-range jump on which threading turns a fault into an accept |
| `Dataflow.RedundantLoadMarks` | pktbaffle/src/optimizer.rs:112-162 | the single forward sweep solves the dataflow equations, and marks a load exactly when every path to it leaves that load's value in A |
| `Dataflow.MarksAreExact` | pktbaffle/src/optimizer.rs:97-162 | any solution of the equations marks a load if and only if it is redundant on all paths |
| `Dataflow.MarkedLoadsAreNoOps` | pktbaffle/src/optimizer.rs:97-162 | in any run that reaches a marked load, A already holds its value and the load is in bounds |
| `Removal.ReachableMarks` | pktbaffle/src/optimizer.rs:166-190 | the depth-first search marks exactly the reachable instructions |
| `Removal.RemoveUnkept` | pktbaffle/src/optimizer.rs:195-227 | kept instructions move together and every jump offset is recomputed to the new position of its target |
| `Removal.KeptAt` | pktbaffle/src/optimizer.rs:195-227 | where a kept instruction ends up and what it jumps to afterwards |
| `Optimizer.RemovalPreservesExec` | pktbaffle/src/optimizer.rs:23-36 | dropping unreachable instructions, no-op jumps and redundant loads keeps the outcome along every run |
| `Optimizer.Optimize` | pktbaffle/src/optimizer.rs:23-36 | no packet's outcome changes, faults included; never longer; every instruction left is reachable; jumps stay in range |
| `Optimizer.DuplicateRemovalPreservesExec` | pktbaffle/src/optimizer.rs:234-289 | removing the second of two equal loads keeps every run, also one that jumped onto it, in any program |
| `Optimizer.DedupLoads` | pktbaffle/src/optimizer.rs:234-289 | no packet's outcome changes for any program, no adjacent equal loads are left, no offset underflows |
| `Meaning.EvalIsSat` | pktbaffle/src/vm.rs:124-137 | where no field is out of bounds the three-valued and the two-valued meaning of a test agree |
| `Meaning.Eval3IsMatches` | pktbaffle/src/codegen.rs:505-514 | the same for whole expressions |
| `Lengths.LongEnoughIsReadable` | pktbaffle/src/vm.rs:124-137 | a packet as long as all mentioned fields need makes no test abort |
| `Lengths.GuardsAreReadable` | pktbaffle/src/codegen.rs:675-700 | hoisted guards read nothing the primitives themselves do not read |
| `Guards.L4SetsFormAnOrder` | pktbaffle/src/codegen.rs:154-180 | `subset_of` is inclusion and `join` the least upper bound there is |
| `Guards.MeetIsSound` | pktbaffle/src/codegen.rs:217-238 | facts joined at the end of an `or` hold on either path |
| `Guards.GuardsAreSound` | pktbaffle/src/codegen.rs:255-407 | a packet the expression accepts satisfies every required guard |
| `Guards.HoistingIsSound` | pktbaffle/src/codegen.rs:672-700 | where no `vlan` shifts offsets, `l or r` equals the shared guards and `l or r` |
| `Guards.TypeGuardIsSound` | pktbaffle/src/codegen.rs:255-327 | the ethertype an expression requires is that of the outermost header, behind whatever tags it looks |
| `Guards.RequiredGuards` | pktbaffle/src/codegen.rs:293-327 | the memoised post-order walk returns the recursive guard set and keeps the cache right |
| `Fragments.RunLinked` | pktbaffle/src/codegen.rs:468-502 | resolving pending jumps continues each exit where it now leads |
| `Fragments.RunKeepsX` | pktbaffle/src/codegen.rs:455-465 | code counted as writing X nowhere leaves X alone on every exit |
| `PrimProofs.EthertypeSound` | pktbaffle/src/codegen.rs:764-790 | the ethertype guard, elided or not, decides its test exactly, a test for the type of a second tag always passes, and the fact it records holds |
| `PrimProofs.Ip4L4Sound` | pktbaffle/src/codegen.rs:796-808 | the same for the IPv4 protocol guard |
| `PrimProofs.Ip6L4Sound` | pktbaffle/src/codegen.rs:811-823 | the same for the IPv6 next-header guard |
| `PortProofs.PortPrereqsSound` | pktbaffle/src/codegen.rs:1149-1280 | the port prologue in all its forms (elided, narrowed, one version, both) decides "has ports", and afterwards X is the transport offset |
| `PortProofs.OnPortsSound` | pktbaffle/src/codegen.rs:1041-1127 | a port test behind whatever prologue was emitted decides the port formula |
| `AccessProofs.AccessSound` | pktbaffle/src/codegen.rs:1451-1587 | byte access with either right-hand side, through X and scratch memory, decides the written comparison |
| `AccessProofs.PrimSound` | pktbaffle/src/codegen.rs:704-1648 | every primitive decides its formula, the type of a second tag left out, on every packet under any facts that hold, faults included, and its facts hold on success |
| `EmitProofs.HoistSound` | pktbaffle/src/codegen.rs:675-700 | the hoisted guards decide their conjunction |
| `EmitProofs.EmitCompiles` | pktbaffle/src/codegen.rs:515-700 | wherever its entry facts hold, the code of an expression takes exactly the exit of the hoisted meaning, faults included; on every success exit the recorded facts hold and `ports_ready` means X is the transport offset, although facts are not kept apart by tag depth |
| `EmitProofs.ChainCompiles` | pktbaffle/src/codegen.rs:551-583 | the code of an `and` chain that begins with `vlan`, further tag tests included, is exact from any facts that hold, and leaves facts that hold behind the tag |
| `PortFacts.PortsIrrelevant` | pktbaffle/src/codegen.rs:1149-1155 | an expression without port tests compiles to the same code and facts whether or not a transport offset is on record |
| `PortFacts.NoneLeft` | pktbaffle/src/codegen.rs:217-238 | only a port test outside `not` and in both arms of every `or` around it leaves a transport offset |
| `Hoisting.HoistedNeverWrong` | pktbaffle/src/codegen.rs:672-700 | guards in front of an `or` never change a verdict, whether no arm begins with `vlan` or the guards look only at the ethertype |
| `Hoisting.HoistedReadable` | pktbaffle/src/codegen.rs:672-700 | nor do they fault where every test of the expression can be read |
| `Hoisting.HoistedWithoutOr` | pktbaffle/src/codegen.rs:550-583 | without `or` the hoisted meaning is the plain three-valued one |
| `ShapeProofs.EmitShape` | pktbaffle/src/codegen.rs:515-1648 | resolved jumps of emitted code stay inside it, and emission never panics |
| `PatchProofs.SlotsList` | pktbaffle/src/codegen.rs:80-102 | the two lists hold every pending slot exactly once |
| `PatchProofs.ResolveLinks` | pktbaffle/src/codegen.rs:468-502 | resolving one list links exactly its slots and changes nothing else |
| `PatchProofs.ResolveAllNoPanic` | pktbaffle/src/codegen.rs:468-502 | slots that exist before the target are resolved without panic |
| `BuildProofs.BuildRefines` | pktbaffle/src/codegen.rs:515-670 | the compile with patch lists builds the symbolic code, with its pending slots on the lists, each once |
| `BuildProofs.BuildNoPanic` | pktbaffle/src/codegen.rs:515-700 | no `expect` of the compile fails and no slot is patched backwards |
| `BuildProofs.BuildSucceeds` | pktbaffle/src/codegen.rs:491-502 | code of at most 255 instructions is never refused for a long jump |
| `Finishing.TerminateFinishes` | pktbaffle/src/codegen.rs:1686-1694 | the last two resolutions leave no slot open |
| `Finishing.SmallAssembles` | pktbaffle/src/codegen.rs:1682-1694 | an expression that can be emitted in at most 255 instructions compiles |
| `Finishing.ExecFinished` | pktbaffle/src/codegen.rs:1682-1696 | the interpreter on the finished program follows the symbolic run |
| `Finishing.FinishedInRange` | pktbaffle/src/codegen.rs:1682-1696 | every jump of the finished program stays inside it |
| `Finishing.RunsStayInside` | pktbaffle/src/vm.rs:20-114 | no run of an in-range program falls off its end |
| `ClassicCodegen.Codegen.Push` | pktbaffle/src/codegen.rs:455-465 | appends, counts X writes, and drops the transport-offset fact on one |
| `ClassicCodegen.Codegen.ResolveSlots` | pktbaffle/src/codegen.rs:468-502 | in place, the effect of resolving the whole list |
| `ClassicCodegen.Codegen.StartRight` | pktbaffle/src/codegen.rs:557-573 | the left operand's success slots lead to the right one, and a leading `vlan` deepens the layout |
| `ClassicCodegen.Codegen.JumpOver` | pktbaffle/src/codegen.rs:593-660 | the jump behind an operand of `or` or `not`, and the facts restored unless X was written |
| `ClassicCodegen.Codegen.EmitPrimitive` | pktbaffle/src/codegen.rs:704-734 | appends the primitive's code, sets its facts, returns its slots |
| `ClassicCodegen.Codegen.EmitOrHoist` | pktbaffle/src/codegen.rs:675-700 | appends the guards both arms require, found through the memo |
| `ClassicCodegen.Codegen.EmitExpr` | pktbaffle/src/codegen.rs:515-670 | the work-stack walk ends and yields the code, facts and patch lists of the recursive compile |
| `ClassicCodegen.Generate` | pktbaffle/src/codegen.rs:1682-1694 | `compile` before optimization is the recursive compile, finished |
| `ClassicCodegen.Compile` | pktbaffle/src/codegen.rs:1682-1702 | never panics; the result is in range, all reachable, and implements the expression |
| `CompileProofs.PlainlyCovered` | pktbaffle/src/codegen.rs:515-670 | the exactness theorem covers every expression in which no `vlan` shifts offsets and every `and` chain that begins with `vlan` |
| `CompileProofs.AssembledImplements` | pktbaffle/src/codegen.rs:1682-1702 | compiler correctness: on every packet the outcome is the hoisted meaning, for `vlan` under any connective |
| `CompileProofs.VerdictsAreRight` | pktbaffle/src/codegen.rs:1682-1702 | no verdict of a compiled program is wrong on any packet, unless it tests for a tag behind a tag or an `or` hoists a guard on the network header in front of a tagged arm |
| `CompileProofs.LongEnoughDecides` | pktbaffle/src/codegen.rs:1682-1702 | a packet as long as the loads need is accepted if and only if it matches |
| `CompileProofs.NoOrDecides` | pktbaffle/src/codegen.rs:550-583 | without `or` the outcome is the three-valued meaning on every packet, short ones included |
| `VlanProofs.MeaningMoves` | pktbaffle/src/codegen.rs:441-453 | behind the tag an expression says of the tagged frame what it says of the frame without the tag, hoisted guards included |
| `VlanProofs.VlanStripsTag` | pktbaffle/src/codegen.rs:1376-1389 | on every tagged frame the program for a chain `vlan and ...` has the very outcome of the program for the rest of the chain on the frame without the tag, or drops if the tag does not match |
| `Deviations.MplsLabelIgnoredOnUnicast` | pktbaffle/src/codegen.rs:1393-1420 | the program for `mpls <label>` does what is documented exactly on frames that are not unicast MPLS with another label |
| `Deviations.MplsAcceptsOtherLabel` | pktbaffle/src/codegen.rs:1393-1420 | a unicast MPLS frame with another label that it accepts |
| `Deviations.MplsConjunctsExactly` | pktbaffle/src/codegen.rs:1393-1420 | a program with `mpls <label>` among its conjuncts does what is documented exactly unless the frame fits but for such a label |
| `Deviations.SameLabels` | pktbaffle/src/codegen.rs:1393-1420 | any expression means what is documented on a frame without such a label |
| `TagDeviations.TaggedOrExactly` | pktbaffle/src/codegen.rs:672-700 | for arms with or without a leading `vlan`, the verdict of `l or r` is the written one exactly unless a matching frame is tagged and the arms require the same protocol or ports |
| `TagDeviations.TwoTagsAcceptNothing` | pktbaffle/src/codegen.rs:672-700 | `vlan and port 80 or vlan and port 443`, and every `or` of two such chains, accepts no packet |
| `TagDeviations.TagOrNotMissesTagged` | pktbaffle/src/codegen.rs:672-700 | a tagged frame that `ip proto n or (vlan and ip proto n)` drops |
| `TagDeviations.InnerTagTestsExactly` | pktbaffle/src/codegen.rs:764-790 | the verdict of a chain with tag tests anywhere in it is the written one exactly unless everything but the type behind the tag fits |
| `TagDeviations.SecondTagIsIgnored` | pktbaffle/src/codegen.rs:764-790 | on every packet `vlan and vlan and r` has the outcome of `vlan and r`, in any chain |
| `TagDeviations.SecondTagMatchesNothing` | pktbaffle/src/codegen.rs:551-583 | as written it matches no packet if `r` asks for another type, as `ip` does |
| `TagDeviations.SecondTagAcceptsIPv4` | pktbaffle/src/codegen.rs:764-790 | a singly tagged IPv4 frame that `vlan and vlan` and `vlan and ether proto 0x8100` accept |
| `TagPorts.TagPortThenReads` | pktbaffle/src/codegen.rs:1149-1173 | the exact outcome of `(vlan and tcp src port a or src port b) and src port c` on every packet: behind the chain the half-word four bytes in front of the port is compared, IPv4 or IPv6 |
| `TagPorts.TagPortThenExactly` | pktbaffle/src/codegen.rs:1149-1173 | where every test can be read, its verdict is the written one exactly unless the chain accepts and that half-word is `c` |
| `TagPorts.TagPortThenAccepts` | pktbaffle/src/codegen.rs:1149-1173 | tagged segments it accepts although `src port c` rejects every tagged frame |
| `EbpfVm.LoadThenSwap` | pktbaffle/src/ebpf_codegen.rs:121-140 | a host-order load and its swap read network order on either host |
| `EbpfProofs.AbsLoads` | pktbaffle/src/ebpf_codegen.rs:142-166 | bounds check and load at an offset up to 32767: the field's value in R4, or failure when it is out of bounds |
| `EbpfProofs.FarLoads` | pktbaffle/src/ebpf_codegen.rs:142-166 | any load that stays in the packet: the field at the offset's low 16 bits, signed |
| `EbpfPrims.PortsDecide` | pktbaffle/src/ebpf_codegen.rs:609-730 | the dual-stack prologue decides the transport test and leaves R6 at the transport header with four bytes in bounds |
| `EbpfTheorem.TransDecides` | pktbaffle/src/ebpf_codegen.rs:1018-1049 | transport byte access, wherever it is safe, is bounds-checked and decides its comparison of the loaded field |
| `EbpfTheorem.PrimRight` | pktbaffle/src/ebpf_codegen.rs:355-1075 | every primitive, byte accesses wherever their load is safe, never crashes and decides its test |
| `EbpfTheorem.ExprDecides` | pktbaffle/src/ebpf_codegen.rs:282-351 | the same for every expression |
| `EbpfFinal.CompiledExact` | pktbaffle/src/ebpf_codegen.rs:1112-1131 | on every packet, placement and byte order the program touches no unwritten register and no byte outside the packet, reaches one of its exits, and passes the packet exactly when the expression holds |
| `EbpfBuild.BuildRight` | pktbaffle/src/ebpf_codegen.rs:282-351 | the compile with patch lists never panics, fails exactly where emission does or a jump exceeds 15 bits, and builds the symbolic code with each pending slot on its list once |
| `EbpfBuild.ResolveOperand` | pktbaffle/src/ebpf_codegen.rs:93-113 | resolving an operand's list fails exactly when a jump gets too long, links its slots and changes nothing else |
| `EbpfBuild.AssembleIsCompile` | pktbaffle/src/ebpf_codegen.rs:1112-1131 | the patch-list compile and the symbolic one fail alike and give the same program |
| `EbpfCodegen.Codegen.ResolveAll` | pktbaffle/src/ebpf_codegen.rs:108-113 | in place, the effect of resolving the whole list |
| `EbpfCodegen.Codegen.EmitExpr` | pktbaffle/src/ebpf_codegen.rs:282-351 | the work-stack walk ends and yields the code and patch lists of the recursive compile |
| `EbpfCodegen.Codegen.Finish` | pktbaffle/src/ebpf_codegen.rs:1117-1130 | both epilogues, with every remaining slot resolved to one of them |
| `EbpfCodegen.CompileXdp` | pktbaffle/src/ebpf_codegen.rs:1112-1131 | never panics, and the program crashes on no packet and returns the verdict of the compiled meaning |
| `EbpfFinal.SafeConstantsExactly` | pktbaffle/src/ebpf_codegen.rs:1051-1075 | a sign-extended comparison is the written one on all values if and only if the constant is below 2^31 (or cannot matter) |
| `EbpfFinal.SafeExprHolds` | pktbaffle/src/ebpf_codegen.rs:1051-1075 | with such constants the verdict is the plain 32-bit meaning |
| `EbpfFinal.HighHostNeverMatches` | pktbaffle/src/ebpf_codegen.rs:415-435 | no packet matches a source host whose address has its top bit set |
| `EbpfFinal.HighHostMissesItsFrame` | pktbaffle/src/ebpf_codegen.rs:415-435 | the program for it drops even a frame from that host |
| `EbpfReach.LoadSafeExactly` | pktbaffle/src/ebpf_codegen.rs:142-166 | an absolute load never leaves any packet if and only if its end is below 2^31 and its offset cut to 16 bits is not negative |
| `EbpfReach.LoadRightExactly` | pktbaffle/src/ebpf_codegen.rs:142-166 | it reads the right value on every packet if and only if its offset is at most 32767 |
| `EbpfReach.TransSafeExactly` | pktbaffle/src/ebpf_codegen.rs:1018-1049 | a transport load never leaves any packet if and only if its end is below 2^31 and its cut offset does not reach in front of the link header |
| `EbpfReach.TransRightExactly` | pktbaffle/src/ebpf_codegen.rs:1018-1049 | it reads the right value on every packet if and only if its offset is at most 32767 |
| `EbpfReach.TopByteCrashes` | pktbaffle/src/ebpf_codegen.rs:986-1016 | the program for `ether[2147483647] = 0` reads in front of a 60-byte packet |
| `EbpfReach.FarByteCrashes` | pktbaffle/src/ebpf_codegen.rs:986-1016 | the program for `ether[40000] = 0` reads in front of a packet of 40001 bytes |
| `EbpfReach.WrappedByteIsWrong` | pktbaffle/src/ebpf_codegen.rs:986-1016 | the program for `ether[65536] = 1` drops a packet whose byte 65536 is 1 |
| `Ring.GeometryMeetsKernel` | pkttap/src/live/linux_ring.rs:157-204 | accepted geometries meet the kernel's rules and map exactly their blocks; exactly which requests are accepted |
| `Ring.ParseFrame` | pkttap/src/live/linux_ring.rs:255-287 | a yielded slice lies inside the block and within the snap length, whatever the header says |
| `Ring.Reader.ReleaseCurrent` | pkttap/src/live/linux_ring.rs:528-535 | clears the status word and moves on, one block fewer in hand |
| `Ring.Reader.NextFrameNow` | pkttap/src/live/linux_ring.rs:453-509 | the non-blocking call ends for any block contents; its frame lies inside its block and the mapping; it returns nothing only when nothing is ready |
| `RingProtocol.FramesAreLinked` | pkttap/src/live/linux_ring.rs:255-287 | the k-th frame of a walk is behind the k-th linked header |
| `RingProtocol.FramesStop` | pkttap/src/live/linux_ring.rs:453-509 | a walk stops exactly at its count, a zero link or the first malformed header |
| `RingProtocol.RunsKeepOwnership` | pkttap/src/live/linux_ring.rs:19-22 | in every interleaving a block is walked only while handed over, and every hand-over is released exactly once |
| `RingProtocol.TurnReadsOwnBlockOnly` | pkttap/src/live/linux_ring.rs:453-520 | the reader's behaviour depends on no block it does not own |
| `RingProtocol.TurnWritesOwnStatusOnly` | pkttap/src/live/linux_ring.rs:528-535 | the reader writes nothing but the status word of its block, on release |
| `RingProtocol.YieldedBytesStay` | pkttap/src/live/linux_ring.rs:419-445 | whatever the kernel does, a yielded packet does not change before the next call |
| `RingProtocol.DeliveredInOrder` | pkttap/src/live/linux_ring.rs:453-509 | with in-order hand-over the delivered packets are a prefix of the frames of the blocks handed over, and all of them when nothing is ready |
| `ExprParser.Parser.ParseExpr` | pktbaffle/src/parser.rs:127-181 | the same tree, end position and success as the recursive grammar, for any tokens |
| `ExprParser.Parse` | pktbaffle/src/parser.rs:38-51 | succeeds exactly when the whole input is one expression |
| `Spellings.SpellingReadsBack` | pktbaffle/src/parser.rs:8-12 | every fully parenthesised spelling, of primitives whose names the primitive step reads back, is read back to its tree if and only if it nests at most 9995 deep |
| `Integers.ShiftReadsBack` | pktbaffle/src/parser.rs:1102-1112 | the shift-back test accepts exactly the left shifts that lose nothing |
| `Integers.BitsAgree` | pktbaffle/src/parser.rs:1064-1093 | 64-bit `&`, `^`, `\|` are those of unbounded two's complement |
| `Integers.MachineIsExact` | pktbaffle/src/parser.rs:1064-1168 | each operator yields the exact result, or fails exactly when there is none in 64 bits |
| `OffsetParser.EvaluateAnswers` | pktbaffle/src/parser.rs:1059-1204 | an evaluation ends with a value exactly when every part of the term the grammar reads fits 64 bits and the nesting is within budget, and the value is the unbounded one |
| `OffsetParser.BudgetOnlyWhenExceeded` | pktbaffle/src/parser.rs:1172-1186 | an evaluation that does not exceed the budget ends the same way from any lower depth |
| `OffsetParser.Parser.MoreOperands` | pktbaffle/src/parser.rs:1064-1168 | the operand loop of a level |
| `OffsetParser.Parser.NestedLevel` | pktbaffle/src/parser.rs:1172-1186 | nothing nested runs over the budget; the counter is back at its entry value except behind a nesting that exceeds it, whose own charge stays |
| `OffsetParser.Parser.Atom` | pktbaffle/src/parser.rs:1188-1204 | a parenthesis costs 4, a minus 1; result, position and depth as the evaluation says |
| `OffsetParser.Parser.ParseOffsetExpr` | pktbaffle/src/parser.rs:1059-1062 | succeeds if and only if the grammar reads a term whose every part fits 64 bits, within budget, with a value in 32 bits; the result is its unbounded value |

## Left out

- On the classic back end, two kinds of expression: a `vlan` behind a tag that shifts offsets again, as in `vlan and (vlan and tcp)`, and a port test after an `or` or `and` that leaves a transport offset from behind a tag (TagPorts.TagPortThenExactly treats one such family). The code is not right there in general, and beyond those results only panic freedom, in-range jumps and optimizer correctness are stated.
- EmitProofs.EmitCompiles: does not cover those two kinds of expression.
- CompileProofs.AssembledImplements: does not cover those two kinds of expression.
- CompileProofs.NoOrDecides: does not cover those two kinds, nor a tag test behind a tag, which the code leaves out (TagDeviations.InnerTagTestsExactly).
- AccessProofs.PrimSound: does not cover tag depths that push the IP header across 2^32.
- EmitProofs.HoistSound: does not cover tag depths that push the IP header across 2^32.
- PortProofs.PortPrereqsSound: does not cover tag depths that push the IP header across 2^32, where the source's offset arithmetic overflows.
- PortProofs.OnPortsSound: does not cover tag depths that push the IP header across 2^32, where the source's offset arithmetic overflows.
- ClassicCodegen.Compile: the correctness clause is about the expressions of CompileProofs.AssembledImplements and assembled programs of at most 2^32 instructions, the range of `ja` offsets.
- CompileProofs.VerdictsAreRight: does not cover a tag test behind a tag, nor an `or` that hoists a guard on the network header in front of a tagged arm, where verdicts can be wrong (TagDeviations says when).
- CompileProofs.LongEnoughDecides: the same.
- ClassicCodegen.Codegen.EmitPrimitive: each primitive's code is computed as a value and then pushed; the order in which a primitive pushes and records facts is not modelled step by step.
- EbpfCodegen.Codegen.EmitPrimitive: each primitive's code is computed as a value and then pushed, as in the classic generator.
- EbpfFinal.CompiledExact: does not cover programs with a byte access whose load can leave the packet (EbpfReach gives exactly which), and the packet must lie 2 GiB and 64 KiB below the top of the address space, so that the check `end + offset` itself does not wrap.
- EbpfCodegen.CompileXdp: "never panics" is with wrapping arithmetic; the `i32` sum of a transport offset and its size (pktbaffle/src/ebpf_codegen.rs:1034-1035) overflows for offsets of 2^31 - 4 and more, depending on the size, and panics in builds that check overflow; and the verdict clause does not cover byte accesses whose load can leave the packet.
- EbpfTheorem.ExprDecides: does not cover byte accesses whose load can leave the packet.
- Equality of the two back ends: they differ by design (fragments, dual-stack `tcp`, tags), so each is stated against its own meaning.
- The lexer, keyword tables and `parse_primitive`: a primitive is one abstract step that consumes tokens; many shallow cases.
- RingProtocol.RunsKeepOwnership: the atomic status word is a sequentially consistent cell; memory ordering is not modelled.
- Ring.Reader.NextFrameNow: the blocking mode is covered by the interleavings of RingProtocol, `poll` itself is not modelled.
- Overflow of page rounding in the ring geometry, which the source does not check, is a separate result and nothing is claimed of it.
- `inbound` and `outbound` (always an error), error message texts, `Display`, byte encodings of programs.
- Sockets, `mmap`, injection, fanout, timestamps, pcap files, Npcap loading.
