# CHERIoT-Ibex: capability machine, temporal safety engines and related circuits

A Dafny model of the parts of CHERIoT-Ibex whose promises hold only across many operations, with
proofs of those promises. `dafny verify dfyconfig.toml` checks everything.

**Capability arithmetic** (`Bits`, `CapTypes`, `Bounds`, `Address`, `BoundsCircuit`, `Rounding`,
`RoundDown`, `BitCounters`, `BitFields`, `Codecs`, `CodecProofs`, `CodecInverse`, `It8Invariant`,
`Layouts`). A capability's bounds are nine-bit fields, an exponent and correction bits, read relative to an address.
Words are natural numbers; shifts, masks and truncation are written out, with lemmas that connect them
to powers of two. `Bounds.WellFormed` is the invariant of tagged capabilities: legal exponent, aligned
bounds of at most 511 units below 2^32, address in the representable window, corrections that belong
to that address.

**The capability machine** (`ExStage`, `TaggedMemory`, `Core`, `ResetState`, `Authority`, `Monotone`,
`Confinement`, `Sealing`, `Storability`, `LoadStore`, `Jumps`, `Instructions`). `Core.Step` is one transition per instruction or environment
event over the register file, PCC, special capability registers and a byte memory with one tag per word. Events
include traps, MRET, MEPCC restoration, integer loads and stores of any address, and revocation of a
tag in a register or in memory at any moment. Fixed parameters: capability mode on, debug mode off,
CheriCapIT8 = 0, CheriSBND2 = 0; both memory formats and both settings of the tag-clear fault are
covered (`Core.Config`). The program counter and the choice of instruction are parameters of an
event, so every property holds whatever is fetched. `LoadStore`, `Jumps` and `Instructions` give each
instruction's answer in terms of tags, bounds, permissions and addresses, without the functions of
`ExStage` that compute it: exactly when it is carried out or tagged, and what it then is.

**Temporal safety engines.** Each is a class whose method is one clock edge, proved equal to a
function on an abstract state; safety and progress are then proved over whole runs of that function
together with an environment, from reset.
`TbreModel`, `TbreEngine`, `TbreSafety`, `TbreProgress`, `TbreRefused`, `TbreMissed`: the background
revocation engine (memory words of 65 bits, FIFO depth 4, walk counter of 21 bits as instantiated in
`rtl/cheri_tbre_wrapper.sv`), racing with CPU stores.
`TrvkModel`, `TrvkStage`, `RegFileModel`, `TemporalSafety`: the load filter's pipeline with the
reservation bits of the register file.
`StkzModel`, `StkzSafety`: the resumable stack zeroiser (memory words of 33 bits).

**Bit-manipulation circuits.** `PrefixCount`, `Butterfly`, `GatherScatter`: prefix counter, butterfly
and inverse butterfly against bit-serial scatter and gather. `Crc`: the two-cycle CRC against the
bit-serial reflected CRC.

**List benchmark.** `StableMerge`, `CoreList`: in-place bottom-up mergesort on heap nodes, reversal,
removal and its undo.

**PMP register model.** `PmpModel`, `PmpLocks`, `PmpWrites`, `CounterMasks`, `PmpRegisters`: register
classes that lock each other (section 3.7.1 of the RISC-V Privileged Architecture, and the Smepmp rules
for mseccfg).

## What the environment is assumed to do

- TBRE (`TbreSafety.Legal`): the LSU grants only asserted requests and not in the same cycle as a CPU
  store, answers one outstanding access at a time, returns for an error-free load what memory held at
  its grant; a granted engine store is performed; a CPU store is snooped once, at the address of its last
  part, and may have written the granule before that one unsnooped (`TbreSafety.CpuStore`); shadow bits
  arrive once per load, in order; the control registers hold still during a walk. `LegalRun` also carries the shape of the engine state, which `RunInv` proves of every
  reachable state, so it excludes no run.
- Load filter (`TemporalSafety.Legal`): an instruction stalls on a register that is not ready, whether
  it reads or writes it; one capability load at most awaits its response; the write port serves a
  load's data alone.
- Zeroiser (`StkzSafety.Legal`): grants answer requests; ZTOPC is given word-aligned, well-formed
  capabilities, and only NULL while the engine runs.

## Where the code and its comments or standards part

- `rtl/cheri_ex.sv:659-660` forms the AUIPCC and AUICGP immediates as a sign bit, the 20 bits and
  eleven zeros, a shift by 11. The model follows the code.
- A misaligned store that crosses an eight-byte boundary is done in two parts
  (`rtl/ibex_load_store_unit.sv:455-457`), and `lsu_req_done` (line 702), on which the TBRE snoops
  (`rtl/ibex_core.sv:1075-1108`), is raised once, with the address of the second part. The write to the
  first granule goes unseen. If the walk has loaded that granule and clears its tag later, it writes the
  old data back over the store: `TbreMissed.MissedStoreRun` is such a run from reset. An update is lost
  exactly by such a write-back of other data (`TbreSafety.RunExact`), so never in a run in which the first
  granule of a split store is not that of an undecided visit (`TbreSafety.RunSafe`).
- The TBRE snoop port also sees stores that a capability check refused, so a refused store spares a
  granule's tag although memory does not change (`TbreSafety.RefusedStoreSparesTag`;
  `TbreRefused.RefusedStoreRun` is a run from reset that ends so). A walk ends unless its end register
  is all ones in bits 23:3, and then never (`TbreProgress.WalkTerminates`, `TbreProgress.AllOnesNeverEnds`); one whose start
  register is all ones there wraps to zero (`TbreSafety.Nth`).
- `rtl/cheri_stkz.sv:134` says that a NULL written to ZTOPC while the engine runs reads back as
  NULL. The capability does; the address is 0 exactly when a store is granted in the cycle of the
  write or the pending store is the one to address 0. Otherwise the pending store puts its own address
  back (`StkzSafety.NullReadback`; `StkzSafety.NullNotReadBack` is such a run from reset).
- `rtl/cheri_ex.sv:1115-1116` argues that `lsu_addr_in_range`, which rounds the base down to a 16-byte
  line, stays 0 for the second word of an access if it is 0 for the first. It does not exactly when the
  second word is the first word of the base's line, with words left to zero above it
  (`StkzSafety.SecondWordInRange`): with base 20 and progress 32 an access at 14, say. The words to be
  zeroed are the smaller area from the base to the progress pointer. The second word falls among those
  exactly for an access that starts in the last word below a 16-byte aligned base with words left to zero
  (`StkzSafety.SecondWordExact`); `StkzSafety.SecondWordOfMisaligned` is a run from reset in which it
  does. Neither happens to an 8-byte aligned access (`StkzSafety.SecondWordAligned`).
- The load filter's range check admits one word of shadow bits beyond the TSMapSize words of the map
  (`TrvkModel.LookupOfBounds`).
- A jump with rd = 0 and rs1 = 1 is a return and takes return sentries only
  (`rtl/cheri_ex.sv:951-954`), so an unsealed capability in register 1 cannot be jumped through without
  a link (`Jumps.PlainJump`).
- The register file gives a revoking verdict priority over its write port, also over a write that does
  not come from the load being judged: such a write in that very cycle loses its tag
  (`TemporalSafety.RegisterStep`).
- CRRL returns a length below its operand exactly for operands above 0xFF000000, where 2^32 does not
  fit the register (`RoundDown.CrrlCovers`).
- `dv/cs_registers/model/base_register.cc:229` locks a PMP address register whenever its own region's lock
  bit is set or the next region is in TOR mode. Section 3.7.1 of the RISC-V Privileged Architecture and
  `rtl/ibex_cs_registers.sv:1314-1327` lock it for the next region only if that region is locked too, and
  let RLB bypass both locks. `PmpLocks.AddrRuleMet` gives exactly the states in which the two agree;
  `PmpLocks.TorWithoutLock` and `PmpLocks.LockUnderRlb` reach, from reset, a state of either kind in which
  they do not.

## Model

| member | source | states |
|---|---|---|
| CapTypes.CompressExpand | rtl/cheri_pkg.sv:121-198 | the six permission bits survive expansion to twelve and compression back |
| CapTypes.PermTable | rtl/cheri_pkg.sv:121-159 | for each of the twelve permissions, the condition on the six bits that grants it |
| CapTypes.CompressNarrows | rtl/cheri_pkg.sv:161-198 | compression invents no permission, keeps GL, and is exact on precisely the encodable sets |
| CapTypes.MaskIsClearThenCompress | rtl/cheri_pkg.sv:201-231 | what a capability load clears directly on compressed bits is what clearing GL, LG, SD and LM on the expanded permissions would give |
| CapTypes.MaskNarrows | rtl/cheri_pkg.sv:201-231 | a load never adds a permission, and from a sealed capability takes at most GL |
| Bounds.Decode | rtl/cheri_pkg.sv:245-264 | a capability whose fields and corrections stand for bounds at an address reads back exactly those bounds |
| Address.SetAddressTag | rtl/cheri_pkg.sv:312-336 | an address move keeps the tag exactly inside the representable window of the base |
| Address.SetAddressSound | rtl/cheri_pkg.sv:312-336 | whatever leaves an address move tagged is well-formed with the old bounds, permissions and object type |
| Address.RegMovePreservesBounds | rtl/cheri_pkg.sv:312-336 | register source: tag kept iff exponent 24 or new address in [base, base + 2^(exp+9)), and then the compressed result decodes at the new address to the old bounds |
| Address.PccMovePreservesBounds | rtl/cheri_pkg.sv:700-719 | the same for a program-counter source |
| BoundsCircuit.BitLengthIsLeast | rtl/cheri_pkg.sv:343-353 | the size count is the least n with value < 2^n |
| BoundsCircuit.TrailingZerosIsAlignment | rtl/cheri_pkg.sv:356-367 | at least e trailing zeros means exactly divisible by 2^e |
| BitCounters.ThermoDec32 | rtl/cheri_pkg.sv:372-391 | five halvings count the ones of a thermometer code |
| BitCounters.GetSize | rtl/cheri_pkg.sv:343-353 | smearing downwards and counting yields the bit length |
| BitCounters.CountTz | rtl/cheri_pkg.sv:356-367 | smearing upwards, inverting and counting yields the trailing zeros |
| Rounding.SetBoundsComputes | rtl/cheri_pkg.sv:438-522 | the two-candidate datapath rounds the base down and the top up at the chosen exponent, with the mask and length outputs of that exponent |
| Rounding.ChoiceIsLeast | rtl/cheri_pkg.sv:396-415 | the chosen exponent is the least of 0..14, 24 whose span fits 511 units |
| Rounding.LeastIsExact | rtl/cheri_pkg.sv:438-522 | a region is exact at the chosen exponent iff any legal exponent represents it exactly |
| Rounding.CSetBoundsTightAndContained | rtl/cheri_pkg.sv:438-522 | CSetBounds on a well-formed source: a tagged result is the tightest representable region around the request, and stays inside the source though only the unrounded request is checked |
| Rounding.CSetBoundsTag | rtl/cheri_pkg.sv:438-522 | the tag is kept iff the request is in bounds, and in the exact form iff moreover some legal exponent represents it exactly |
| RoundDown.RoundDownBounds | rtl/cheri_pkg.sv:524-569 | CSetBoundsRoundDown keeps the base at the address, never passes the requested top, and keeps the tag iff the request is in bounds |
| RoundDown.RoundDownIsLongest | rtl/cheri_pkg.sv:524-569 | no other exponent up to 14 gives a longer region from that exact base inside the request |
| RoundDown.CrrlComputes | rtl/cheri_ex.sv:431-436 | CRRL rounds up at the least exponent that fits, on 32 bits, and CRAM is that exponent's mask |
| RoundDown.CrrlCramMakeExact | rtl/cheri_ex.sv:734-749 | a request of length CRRL(len) at an address CRAM(len) leaves unchanged is exactly representable |
| RoundDown.CrrlCovers | rtl/cheri_ex.sv:431-436 | CRRL(len) >= len iff len <= 0xFF000000 |
| CodecProofs.RoundTrip0 | rtl/cheri_pkg.sv:765-872 | format 0: every capability with a legal exponent and the corrections of its address, which `Storability.RunStorable` shows of every reachable value, survives a store and a load, up to what the load was asked to clear |
| CodecProofs.RoundTrip1 | rtl/cheri_pkg.sv:908-1053 | format 1, the same capabilities: metadata and the scattered address both survive |
| CodecInverse.Reencode0 | rtl/cheri_pkg.sv:765-872 | format 0: decoding any two words and encoding the result gives the metadata word back, all 32 data bits, unless the load took permissions away |
| CodecInverse.Reencode1 | rtl/cheri_pkg.sv:908-1053 | format 1: decoding any two words and encoding the result and its address gives both words back |
| CodecInverse.Reencode0It8 | rtl/cheri_pkg.sv:800-900 | the same for IT8, format 0 |
| CodecInverse.Reencode1It8 | rtl/cheri_pkg.sv:942-1093 | the same for IT8, format 1 |
| CodecInverse.AddrStored | rtl/cheri_pkg.sv:1001-1053 | gathering an address from two arbitrary format 1 words and scattering it again gives its parts back, for every exponent |
| CodecInverse.LoadedStorable1 | rtl/cheri_pkg.sv:908-1022 | whatever two format 1 words hold, the loaded capability has a legal exponent and the corrections of the loaded address |
| CodecProofs.It8BoundsRoundTrip | rtl/cheri_pkg.sv:800-900 | the IT8 encoding reconstructs the ninth top bit iff exponent 0 or a span of at least 256 units |
| CodecProofs.RoundTrip0It8 | rtl/cheri_pkg.sv:800-900 | IT8, format 0 round trip |
| CodecProofs.RoundTrip1It8 | rtl/cheri_pkg.sv:942-1093 | IT8, format 1 round trip with the address |
| It8Invariant.SetBoundsStorable | rtl/cheri_pkg.sv:417-522 | CSetBounds under IT8 always yields what that encoding can hold |
| It8Invariant.RoundDownStorable | rtl/cheri_pkg.sv:572-608 | so does CSetBoundsRoundDown under IT8 |
| It8Invariant.SetAddressStorable | rtl/cheri_pkg.sv:312-336 | so does any address move |
| Layouts.WordLayout0 | rtl/cheri_pkg.sv:857-872 | the metadata word of format 0 is the sum of its fields at their bit positions |
| Layouts.PermissionBits | rtl/cheri_pkg.sv:857-872 | the six permission bits in the words, b0 the lowest |
| Layouts.WordLayout0It8 | rtl/cheri_pkg.sv:875-900 | the same for IT8 |
| Layouts.WordLayout1 | rtl/cheri_pkg.sv:1025-1053 | both words of format 1 as sums of fields; with m the smaller of exponent and 23, address bits m to m + 8 are below the bounds and the others, in order, in the upper word |
| Layouts.WordLayout1It8 | rtl/cheri_pkg.sv:1056-1093 | the same for IT8 |
| Layouts.StoredWordsAt | rtl/ibex_load_store_unit.sv:267-305 | an issued capability store leaves the lower word at its address and the upper one behind it, each tagged as the value that arrives |
| Layouts.RevokeStep | rtl/cheri_tbre.sv:99-106 | clearing a word's tag in memory takes the tag of its granule and no data, and changes no other granule |
| Authority.BoundsFromA | rtl/cheri_ex.sv:423-447 | every bounds instruction's tagged result gives no more than its source, which was unsealed |
| Authority.SubsetDecidesAuthority | rtl/cheri_ex.sv:457-463 | the subset instruction decides containment of bounds and permissions between capabilities of the same tag |
| Authority.AndPermFromA | rtl/cheri_ex.sv:377-390 | CANDPERM only narrows |
| Authority.AddrFromSource | rtl/cheri_ex.sv:404-421 | address arithmetic keeps authority, from a register or from the PCC, and never returns a tagged sealed value |
| Authority.LinkFromPcc | rtl/cheri_ex.sv:569-611 | the link register's capability gives no more than the PCC |
| Authority.JumpPccFromA | rtl/cheri_ex.sv:569-611 | the PCC after a jump gives no more than the jump register; which jumps are carried out is `Jumps.JumpStep` |
| Authority.CsrWriteFromA | rtl/cheri_ex.sv:509-567 | what CCSR_RW writes to a special register gives no more than the source, and MTCC and MEPCC stay unsealed |
| Monotone.StoreThenLoad | rtl/ibex_load_store_unit.sv:267-305 | a stored value loads back with its tag, and unchanged iff its exponent is legal and its corrections are those of its address, tagged or not, in both memory formats |
| Monotone.StepMonotone | rtl/cheri_ex.sv:261-613 | one step keeps all tagged capabilities well-formed, each contained in one tagged before; exactly what a load takes away is `LoadStore.CapLoad` |
| Monotone.RunMonotone | rtl/cheri_ex.sv:261-613 | capability monotonicity over every run |
| Confinement.StepConfined | rtl/cheri_ex.sv:792-971 | an issued access is covered by the tagged capability in its address register |
| Confinement.RunConfined | rtl/cheri_ex.sv:792-971 | over every run each access stays inside an initially tagged capability with LD or SD, without wrapping at 2^32 |
| Confinement.StepWritesInside | rtl/cheri_ex.sv:792-971 | a step changes no byte outside its own store |
| Confinement.RunWritesConfined | rtl/cheri_ex.sv:792-971 | over every run a changed byte lies inside an initially tagged capability with SD |
| Confinement.LoadsReadInside | rtl/cheri_ex.sv:792-971 | the registers after a step depend on no memory outside the access |
| Sealing.SealThenUnseal | rtl/cheri_ex.sv:360-375 | what an authority seals it can unseal to the same capability, GL aside if the authority is local; exactly when sealing and unsealing succeed is `Instructions.SealDecides` and `Instructions.UnsealDecides` |
| Sealing.StepSealed | rtl/cheri_ex.sv:360-421 | unless the step seals or links and writes the register, a tagged sealed capability is a copy of one that existed before |
| Sealing.RunSealed | rtl/cheri_ex.sv:526-547 | over every run a tagged sealed capability has the address, bounds, type and permissions (GL aside) of one sealed initially or written by a CSEAL or jump that was carried out |
| Sealing.PccNeverSealed | rtl/cheri_ex.sv:569-611 | no run leaves a tagged sealed PCC |
| ResetState.ResetGood | rtl/cheri_pkg.sv:101-110 | the reset capabilities satisfy the invariant, with any vectors and any untagged memory |
| ResetState.RootsByNumber | rtl/ibex_cs_registers.sv:1843-1932 | out of reset PCC and special registers 28 and 31 are the execution root, 29 the memory root, 30 the sealing root, each with exactly its permissions over all of memory; nothing else is tagged and interrupts are off |
| ResetState.AuthorityFromRoots | rtl/ibex_cs_registers.sv:1843-1932 | whatever runs after reset, every tagged capability is contained in one of three roots; none has store with execute, or seal with any access |
| Storability.StepStorable | rtl/cheri_ex.sv:261-613 | every instruction and event leaves every value, tagged or not, with a legal exponent and the corrections of its own address |
| Storability.RunStorable | rtl/cheri_pkg.sv:765-1053 | in every state reachable from reset all registers, special registers and memory granules hold such values, and the PCC's exponent is legal |
| Storability.ReachableSurvivesMemory | rtl/ibex_load_store_unit.sv:267-305 | every value of every reachable state, tagged or not, is the same after a store and a load, in both memory formats |
| Storability.CopyKeepsData | rtl/ibex_load_store_unit.sv:267-305 | copying any granule through a register copies all 64 data bits unless a tagged load takes permissions away, and the copy is tagged iff the loaded value was |
| Storability.SetHighOfGetHigh | rtl/cheri_ex.sv:348-400 | in format 0 CSETHIGH undoes CGETHIGH, tag aside, iff the value is one the encoding can hold |
| LoadStore.CapLoad | rtl/cheri_ex.sv:486-498 | CLC is issued iff the authority is tagged, unsealed, has LD and contains the aligned eight bytes, and else changes nothing; the register then holds the granule's data, tagged iff the granule was and the authority has MC; a tagged value keeps GL iff the authority has LG and, unless sealed, LG iff it has LG, SD and LM iff it has LM |
| LoadStore.CapStore | rtl/cheri_ex.sv:499-508 | CSC is issued iff the authority is tagged, unsealed, has SD, contains the aligned eight bytes and has MC if the value is tagged, and else changes nothing; the granule then loads as the value, tagged iff the value was and is global or the authority has SL; no other granule changes |
| LoadStore.IntIssued | rtl/cheri_ex.sv:792-841 | the first-byte check against top - size on 33 bits is containment of the whole access, with tag, seal and LD or SD |
| LoadStore.IntStore | rtl/ibex_load_store_unit.sv:191-262 | an integer store that is issued puts its bytes there, lowest first, changes no other byte and untags exactly the words it touches |
| LoadStore.IntStoreThenLoad | rtl/ibex_load_store_unit.sv:336-440 | an integer load returns what a store of the same size put there, zero- or sign-extended |
| Jumps.JumpStep | rtl/cheri_ex.sv:948-956 | CJALR is carried out iff its capability is tagged, executable and unsealed other than for a return, or sealed with immediate 0 and a type that fits rd and rs1; otherwise nothing changes; it enters that capability, and types 3 and 5 set, 2 and 4 clear the interrupt enable |
| Jumps.LinkDecides | rtl/cheri_ex.sv:582-588 | the link has the return address and the PCC's bounds and permissions, is tagged iff the PCC is and the address lies in its window, and is sealed with type 5 or 4 by the interrupt enable, in register 1 only |
| Jumps.JalStep | rtl/cheri_ex.sv:569-611 | CJAL writes its link and nothing else, and goes to the immediate's distance rounded down to even |
| Jumps.RunExecutable | rtl/ibex_cs_registers.sv:1843-1932 | in every state reachable from reset a tagged PCC, MTCC or MEPCC has EX |
| Jumps.CallThenReturn | rtl/cheri_ex.sv:569-611 | if a call leaves a tagged link in register 1, `cjalr c0, 0(c1)` branches to the address after the call with the bounds and permissions of the caller's PCC and the interrupt enable of the moment of the call, and changes nothing else |
| Jumps.ReachableCallReturns | rtl/cheri_ex.sv:902-925 | the same for every call in a state reachable from reset |
| Jumps.TrapStep | rtl/cheri_pkg.sv:737-759 | a trap enters MTCC with interrupts off and changes only PCC and MEPCC besides |
| Jumps.TrapThenReturn | rtl/cheri_pkg.sv:737-759 | MRET after a trap gives back the interrupted bounds and permissions, tagged iff they were and the exception address lies in their window |
| Instructions.SealDecides | rtl/cheri_ex.sv:936-943 | CSEAL's result is tagged iff cs1 is tagged and unsealed and cs2 is tagged, unsealed, has SE, and its address is in its bounds and a type for cs1: 1 to 7 with EX, else 9 to 15 |
| Instructions.UnsealDecides | rtl/cheri_ex.sv:944-947 | CUNSEAL's result is tagged iff cs1 is tagged and sealed and cs2 is tagged, unsealed, has US, and its bounds contain the type of cs1; GL stays iff cs2 has it |
| Instructions.TypeReadBack | rtl/cheri_pkg.sv:644-650 | CGETTYPE of what CSEAL sealed is the type it was given |
| Instructions.PermRead | rtl/cheri_pkg.sv:27-38 | bit k of CGETPERM's result is permission k |
| Instructions.AndPermDecides | rtl/cheri_ex.sv:377-390 | CANDPERM keeps the permissions in the mask, all of them iff that set can be encoded; the tag stays iff cs1 is tagged and unsealed, or the mask has every permission but GL |
| Instructions.AddressDecides | rtl/cheri_ex.sv:404-421 | the five address instructions: the new address on 32 bits, tagged iff the source is tagged and unsealed with the address in its window, and then with its bounds and permissions; when a fault keeps rd |
| Instructions.SubThenInc | rtl/cheri_ex.sv:472-478 | adding CSUB's difference back gives the first address |
| Instructions.BoundsDecides | rtl/cheri_ex.sv:423-447 | the four bounds instructions: tagged iff the source is tagged and unsealed and contains the request, which the exact form wants representable; then the tightest region around it, or from the exact base within it; when a fault keeps rd |
| Instructions.LengthsRead | rtl/cheri_ex.sv:734-739 | CRRL and CRAM answer for the length in rs1 |
| Instructions.BoundsRead | rtl/cheri_ex.sv:299-347 | base, top, tag and address as integers, a top of 2^32 and more read as the largest word |
| Instructions.LengthRead | rtl/cheri_pkg.sv:234-242 | the length of a tagged capability, all of memory read as the largest word |
| Instructions.HighRead | rtl/cheri_ex.sv:348-359 | CGETHIGH reads the metadata word a capability store writes, in both formats |
| Instructions.EqualDecides | rtl/cheri_pkg.sv:1133-1144 | on the values the machine can hold CTESTEQUAL is equality |
| Instructions.SubsetRead | rtl/cheri_ex.sv:457-464 | CTESTSUBSET reads 1 iff the tags are equal and the second's bounds and permissions are within the first's |
| Instructions.MovesRead | rtl/cheri_ex.sv:449-485 | CMOVE copies the whole value, CCLEARTAG all of it but the tag |
| Instructions.CsrStep | rtl/cheri_ex.sv:509-567 | CSPECIALRW: without SR or on an unimplemented register nothing changes; else rd gets the old value and, unless rs1 is register 0, the register the new one; MTCC and MEPCC are aligned down and keep the tag of an unsealed executable capability at an aligned address only |
| Instructions.EventStep | rtl/cheri_regfile.sv:136-166 | an integer result is untagged; revoking a register takes its tag and nothing else |
| PrefixCount.BitCount | rtl/ibex_alu.sv:507-546 | the strided in-place adder tree leaves in entry i the number of ones of bits 0..i |
| Butterfly.LoadedEnough | rtl/ibex_alu.sv:1054-1119 | the count bits kept between the two cycles suffice for every shift amount the network takes |
| Butterfly.StageAt | rtl/ibex_alu.sv:1113-1145 | a stage with its generated masks routes bit by bit |
| Butterfly.RouteInvolution | rtl/ibex_alu.sv:1113-1145 | a stage undoes itself |
| GatherScatter.RouteStep | rtl/ibex_alu.sv:1113-1145 | each stage moves the bit of mask position p from its place in the wide segment to its place in the narrow one |
| GatherScatter.ButterflyIsScatter | rtl/ibex_alu.sv:1139-1163 | the butterfly network equals the bit-serial scatter, for every operand and mask |
| GatherScatter.InverseIsGather | rtl/ibex_alu.sv:1165-1187 | the inverse network equals the bit-serial gather |
| GatherScatter.BCompressOrDecompress | rtl/ibex_alu.sv:1054-1187 | both cycles together, counter included, compute scatter or gather |
| GatherScatter.ScatterGather | rtl/ibex_alu.sv:1054-1187 | gathering and scattering back gives x & m |
| GatherScatter.GatherScatterBack | rtl/ibex_alu.sv:1054-1187 | scattering and gathering back gives the low popcount(m) bits of x |
| Crc.RevBits | rtl/ibex_alu.sv:973-975 | reversal moves bit i to bit 31 - i |
| Crc.ClmulIsProduct | rtl/ibex_alu.sv:951-971 | the five-level xor tree is the carry-less product |
| Crc.Crc32Reciprocal | rtl/ibex_alu.sv:904-905 | the CRC-32 constant is the reciprocal of its polynomial: its digits are the quotient digits of the bit-serial division |
| Crc.Crc32cReciprocal | rtl/ibex_alu.sv:907-908 | the same for CRC-32C (section 12.1 of RFC 3720) |
| Crc.TwoPasses | rtl/ibex_alu.sv:859-882 | multiplying by the reciprocal and then by the polynomial is n steps of the bit-serial CRC |
| Crc.CrcUnitIsSerial | rtl/ibex_alu.sv:1242-1256 | both cycles compute n steps of the reflected CRC, for n in 8, 16, 32, every operand and both polynomials |
| TbreModel.NextShaped | rtl/cheri_tbre.sv:120-160 | SCH_STORE has a head, SCH_LOAD has room, at most one load is unanswered, IDLE is empty; every edge keeps this |
| TbreEngine.QueueStep | rtl/cheri_tbre.sv:202-242 | three circular FIFO memories under a shared read pointer move as one queue, snooped invalidation included |
| TbreEngine.Engine.constructor | rtl/cheri_tbre.sv:162-168 | reset is the empty queue |
| TbreEngine.Engine.Arbitrate | rtl/cheri_tbre.sv:120-160 | walk state machine and load/store scheduler |
| TbreEngine.Engine.StoreReqValid | rtl/cheri_tbre.sv:246-259 | a store is wanted iff the head is complete, tagged, error-free, unspoiled and its shadow bit is 1 |
| TbreEngine.Engine.ClockSlot | rtl/cheri_tbre.sv:226-242 | one slot's write or snooped invalidation |
| TbreEngine.Engine.Clock | rtl/cheri_tbre.sv:162-270 | one clock edge of registers, pointers and memories is one step of the queue machine; in pointer width rd <= shdw_wr <= cap_wr <= req_wr <= rd + 4 |
| TbreSafety.EngineWriteEffect | rtl/cheri_tbre.sv:99-106 | the engine's store changes nothing but the head granule's tag, unless an update of it went unsnooped |
| TbreSafety.RefusedStoreSparesTag | rtl/cheri_tbre.sv:232-237 | a refused but snooped CPU store leaves memory alone and spares the tag |
| TbreRefused.RefusedStoreRun | rtl/cheri_tbre.sv:232-237 | a run from reset whose finished walk leaves a revoked granule tagged though no store was performed |
| TbreSafety.StepInv | rtl/cheri_tbre.sv:119-270 | every cycle keeps queue, bus, memory and records in agreement |
| TbreSafety.RunExact | rtl/cheri_tbre.sv:222-270 | at every moment of every run, unsnooped parts of split stores included: a tag is gone iff the engine cleared it and no CPU store rewrote the granule, data differ from the CPU's iff the engine wrote other data back after missing a store, and an update is lost iff that happened; decided granules were decided rightly |
| TbreSafety.RunSafe | rtl/cheri_tbre.sv:222-270 | no update is lost at any moment of a run in which no split store begins in the granule of an undecided visit: memory is the CPU's own less exactly the tags cleared |
| TbreMissed.MissedStoreRun | rtl/ibex_load_store_unit.sv:455-702 | a run from reset in which the write-back buries the first part of a split store |
| TbreSafety.WalkComplete | rtl/cheri_tbre.sv:120-190 | back in IDLE every granule from start to end was loaded once, in order, and tags were cleared on exactly those whose error-free load was tagged with shadow bit 1 and which no snooped store hit in between; memory is as RunExact says, and no update is lost under RunSafe's condition |
| TbreSafety.VisitedOnce | rtl/cheri_tbre.sv:108-116 | one walk visits no granule twice, and in ascending order unless it starts at the last |
| TbreSafety.WalkedGranules | rtl/cheri_tbre.sv:108-116 | the byte addresses of a finished walk and how many there are, wrap-around included |
| TbreProgress.StepProgress | rtl/cheri_tbre.sv:102-160 | a measure never rises during a walk and falls whenever anything moves |
| TbreProgress.NeverStuck | rtl/cheri_tbre.sv:102-160 | a walk in which nothing moves waits for a grant, a response or a shadow bit |
| TbreProgress.RequestExact | rtl/cheri_tbre.sv:99-106 | the engine requests iff it is in a load turn, or in a store turn with a head that is due, and has no access under way or one answered in this cycle with no wait asked for |
| TbreProgress.TurnTaken | rtl/cheri_tbre.sv:133-160 | loads first while there are any and the queue has room; the grant taking the last room or ending the walk hands over to a due head; a store turn ends with the grant or a head that is not due |
| TbreProgress.WalkTerminates | rtl/cheri_tbre.sv:120-131 | a run that moves often enough brings the walk back to IDLE |
| TbreProgress.IdleIsQuiet | rtl/cheri_tbre.sv:195-216 | in IDLE all pointers are equal and nothing is requested |
| TbreProgress.AllOnesNeverEnds | rtl/cheri_tbre.sv:108-110 | with an end register of all ones a walk that has begun stays in its loading phase in every run |
| TbreProgress.ErrorExact | rtl/cheri_tbre.sv:184-189 | between starts of a walk the error output is set iff it was or a response was an error |
| TrvkModel.LookupOfBounds | rtl/cheri_trvk_stage.sv:58-65 | the granule looked up is that of the capability's true base; exactly which bases and permissions are looked up |
| TrvkModel.RevokedExactly | rtl/cheri_trvk_stage.sv:58-127 | with g the granule of the true base in the heap: revoked iff the base is in the heap, g / 32 is at most TSMapSize, the capability has none of US, SE and U0, and bit g % 32 of word g / 32 is set |
| TrvkModel.VerdictOut | rtl/cheri_trvk_stage.sv:67-128 | three edges after a response its verdict is out, by the map of the second edge, for the reserved register or for the revocation engine's load; other responses give none |
| TrvkStage.Stage.Clock | rtl/cheri_trvk_stage.sv:58-128 | the stage's registers, split over three cycles, carry out the lookup of each loaded capability's base |
| TrvkStage.Stage.Latch | rtl/cheri_trvk_stage.sv:88-121 | which responses enter the pipeline, and with what capability |
| RegFileModel.RegFile.Clock | rtl/cheri_regfile.sv:136-183 | every capability flop and reservation bit for one edge, revocation taking priority over writes and reservation over release |
| TemporalSafety.StepInv | rtl/cheri_trvk_stage.sv:58-128 | every cycle keeps reservations, stages and register contents in agreement |
| TemporalSafety.ReservationExact | rtl/cheri_regfile.sv:167-183 | in every run a register is not ready iff exactly one operation in flight names it |
| TemporalSafety.NoRevokedTagRead | rtl/cheri_regfile.sv:357-372 | in every run a ready register holding a loaded capability presents it with its tag cleared iff the shadow map said revoked, and the map has said |
| TemporalSafety.VerdictStands | rtl/cheri_trvk_stage.sv:66-73 | a verdict once given is never changed |
| TemporalSafety.RegisterStep | rtl/cheri_regfile.sv:136-166 | a register takes the reserved load's data, else what the write port gives, else keeps its value; a revoking verdict in that cycle takes the tag of any of these |
| TemporalSafety.ReadyStep | rtl/cheri_regfile.sv:167-183 | a register is ready iff it was, or its verdict is delivered in this cycle; a reservation makes it not ready |
| StkzModel.Zeroizer.Clock | rtl/cheri_stkz.sv:83-163 | one clock edge of the zeroiser |
| StkzSafety.MovedEncodes | rtl/cheri_stkz.sv:109-116 | moving ZTOPC down without a representability check keeps its bounds |
| StkzSafety.ResumableZeroing | rtl/cheri_stkz.sv:118-155 | after any interruptions and write-backs the zeroed words are exactly those from the progress pointer up, the tag is gone iff that is the whole stack, and ZTOPC reads back the original bounds |
| StkzSafety.StoresInside | rtl/cheri_stkz.sv:57-61 | every store made or asked for, one pending after a NULL write included, is inside the bounds last given |
| StkzSafety.WriteBackResumes | rtl/cheri_stkz.sv:70-83 | writing back what ZTOPC reads resumes the same campaign iff words are left |
| StkzSafety.AccessesStayOut | rtl/cheri_ex.sv:1098-1127 | no access that is not held back falls among the words still to be zeroed |
| StkzSafety.SecondWordExact | rtl/cheri_ex.sv:1101-1118 | the second word of an access that was let through falls among the words still to be zeroed iff the access starts in the last word below a 16-byte aligned base with words left |
| StkzSafety.SecondWordInRange | rtl/cheri_ex.sv:1101-1118 | the range test is 0 for the first word and 1 for the second iff the second is the first word of the base's 16-byte line with words left to zero |
| StkzSafety.SecondWordAligned | rtl/cheri_ex.sv:1115-1117 | neither happens to an 8-byte aligned access |
| StkzSafety.SecondWordOfMisaligned | rtl/cheri_ex.sv:1115-1117 | a run from reset in which the second word of a misaligned access does |
| StkzSafety.GrantMovesDown | rtl/cheri_stkz.sv:88-103 | each grant zeroes one word, and without a stop the engine runs to the base |
| StkzSafety.StopObeyed | rtl/cheri_stkz.sv:88-103 | a stop takes effect at the next grant |
| StkzSafety.NullReadback | rtl/cheri_stkz.sv:129-155 | once the engine has stopped after a NULL write ZTOPC reads the NULL capability, and address 0 iff a store was granted with the write or the pending store was the one to address 0 |
| StkzSafety.NullNotReadBack | rtl/cheri_stkz.sv:129-155 | a run from reset in which a NULL write reads back with a non-zero address |
| StkzSafety.StallExact | rtl/cheri_ex.sv:1098-1127 | accesses are held back iff the engine runs and they lie between the 16-byte line of the base and the progress pointer |
| StkzSafety.StartsExactly | rtl/cheri_stkz.sv:73-83 | a write starts the engine iff it is tagged with SD and, in whole words, base < address <= top |
| StkzSafety.ErrorExact | rtl/cheri_stkz.sv:157-160 | between starts the error output is set iff it was or a response was an error |
| StableMerge.PassDoublesRuns | dv/cheriot/tests/coremark/core_list_join.c:431-482 | one pass turns sorted runs of length n into sorted runs of length 2n |
| StableMerge.PassStable | dv/cheriot/tests/coremark/core_list_join.c:431-482 | a pass reorders nothing among equal keys |
| StableMerge.SortCorrect | dv/cheriot/tests/coremark/core_list_join.c:425-495 | passes of doubling length end sorted and stable |
| StableMerge.StableSortUnique | dv/cheriot/tests/coremark/core_list_join.c:425-495 | a stable sort has one possible result |
| StableMerge.SortForgetsOrder | dv/cheriot/tests/coremark/core_list_join.c:187-188 | with distinct keys the sort restores one order, whatever it starts from |
| CoreList.CmpIdx | dv/cheriot/tests/coremark/core_list_join.c:111-117 | compares by index and, without a result record, rebuilds the data of both items |
| CoreList.RegenBytes | dv/cheriot/tests/coremark/core_list_join.c:111-117 | both bytes of a rebuilt item are its old high byte, and rebuilding again changes nothing |
| CoreList.MergeRuns | dv/cheriot/tests/coremark/core_list_join.c:451-477 | relinks two runs in place into their stable merge |
| CoreList.MergePass | dv/cheriot/tests/coremark/core_list_join.c:431-487 | one pass over the list; it reports a single merge iff the list has at most two runs |
| CoreList.MergeSort | dv/cheriot/tests/coremark/core_list_join.c:425-495 | terminates with an acyclic list of exactly the same nodes, sorted and stable |
| CoreList.Reverse | dv/cheriot/tests/coremark/core_list_join.c:394-403 | the list reversed in place |
| CoreList.Remove | dv/cheriot/tests/coremark/core_list_join.c:315-326 | the item's data leaves with the next node; all other data stays in order |
| CoreList.UndoRemove | dv/cheriot/tests/coremark/core_list_join.c:344-354 | node and data go back behind the modified item |
| CoreList.RemoveAndUndo | dv/cheriot/tests/coremark/core_list_join.c:173-186 | remove and undo leave nodes and data as they were |
| PmpLocks.LockedByteKept | dv/cs_registers/model/base_register.cc:134-204 | a locked byte of a legal configuration word survives write, set and clear, legalization included |
| PmpLocks.LegalizedTwice | dv/cs_registers/model/base_register.cc:185-204 | legalizing is idempotent, and what is legal without MML is legal with it |
| PmpLocks.MSeccfgSticky | dv/cs_registers/model/base_register.cc:113-132 | MML and MMWP never fall, RLB stays 0 while anything is locked |
| PmpLocks.StepLocked | dv/cs_registers/model/base_register.cc:14-34 | one transaction leaves a locked region and RLB = 0 as they are |
| PmpLocks.LocksHoldForever | dv/cs_registers/model/base_register.cc:100-234 | no sequence of transactions without reset changes a locked region's byte, its address register, or RLB = 0 |
| PmpLocks.ModesNeverFall | dv/cs_registers/model/base_register.cc:113-132 | MML and MMWP stay set over every sequence |
| PmpLocks.LocksHoldFromReset | dv/cs_registers/model/register_model.cc:106-123 | the same for a lock set at any time after reset |
| PmpLocks.AddrWriteTakesEffect | dv/cs_registers/model/base_register.cc:206-234 | a write to an address register takes effect iff its region's lock bit is clear and the next region is not in TOR mode |
| PmpLocks.AddrRuleMet | rtl/ibex_cs_registers.sv:1314-1327 | the register model and the standard's rule, RLB bypass included, agree on writes to an address register iff the region's lock bit is set only with RLB = 0 and, where it is clear, a next region in TOR mode is locked with RLB = 0 |
| PmpLocks.TorWithoutLock | dv/cs_registers/model/base_register.cc:227-233 | from reset, an unlocked next region in TOR mode makes the model lose a write the rule allows |
| PmpLocks.LockUnderRlb | dv/cs_registers/model/base_register.cc:227-233 | from reset, a lock bit that RLB bypasses does the same |
| PmpWrites.NextBit | dv/cs_registers/model/base_register.cc:14-34 | every bit of every register but the configuration words: outside its lock mask a write gives the written bit, a set the old or the written, a clear the old and not the written; locked and unaddressed bits stay |
| PmpWrites.CounterBit | dv/cs_registers/model/base_register.cc:246-253 | the same for counter registers, in terms of their WARL masks |
| PmpWrites.SeccfgWritten | dv/cs_registers/model/base_register.cc:113-132 | mseccfg after a write, a set, a clear and a read: MML and MMWP only rise, RLB follows the operation unless it is 0 while an implemented region is locked, all other bits stay |
| PmpWrites.LegalizedBit | dv/cs_registers/model/base_register.cc:185-204 | legalization bit by bit: bits 5 and 6 of a byte fall, W falls without R unless MML, all others stay |
| PmpWrites.CfgWritten | dv/cs_registers/model/base_register.cc:134-204 | each bit of a region's configuration byte after a write, a set and a clear: nothing if the byte is locked with RLB = 0, else the operation, then legalization |
| PmpWrites.AddrWritten | dv/cs_registers/model/base_register.cc:206-234 | an address register after each operation: the old word if its region is locked or the next in TOR mode, else the written word, the union, or the old word less the written bits |
| CounterMasks.InhibitBits | dv/cs_registers/model/register_model.cc:30-34 | mcountinhibit: bit 1 and the bits above the counters cannot be written, and the latter reset to 1 |
| CounterMasks.CounterBits | dv/cs_registers/model/register_model.cc:53-84 | the words of a counter: exactly the bits from the implemented width on cannot be written |
| CounterMasks.CsrMap | dv/cs_registers/model/register_model.cc:9-98 | which registers exist, by CSR number, for every set of parameters, and their reset values |
| PmpRegisters.AnyLocked | dv/cs_registers/model/base_register.cc:100-111 | the loop over the map finds any lock bit |
| PmpRegisters.GetLockMask | dv/cs_registers/model/base_register.cc:113-234 | each class's lock mask, read through the map |
| PmpRegisters.Modify | dv/cs_registers/model/base_register.cc:14-34 | the transaction's new value is that of the step on values; what it is bit by bit is `PmpWrites` |
| PmpRegisters.ProcessTransaction | dv/cs_registers/model/base_register.cc:40-78 | dispatch by address and operation |
| PmpRegisters.RegisterModel.constructor | dv/cs_registers/model/register_model.cc:9-98 | the 114 registers in construction order, distinct, zero, with the WARL masks computed from the counter parameters |
| PmpRegisters.RegisterModel.NewTransaction | dv/cs_registers/model/register_model.cc:106-123 | the loop over the map changes the addressed register alone, by its own rule |
| PmpRegisters.RegisterModel.RegisterReset | dv/cs_registers/model/register_model.cc:100-104 | every register's reset value, WARL registers included |

## Left out

- ZTOPC in the capability machine: `Core.InScope` excludes its accesses; its behaviour is modelled in `StkzModel` with its own environment.
- Load/store unit, ID, IF and WB stages, controller and CSR file beyond the capability registers: not part of this model; what the proofs need of them is listed above.
- `Core.StoreCap`: the two words of a capability store are written in one step; a bus error between them is not modelled.
- Bus errors in the capability machine, and integer accesses split in two: `ExStage.Rv32Err` checks the whole access at its first part.
- Program counter values and instruction-fetch checks: parameters of events.
- Clocked copies in the execution stage (the registered bounds request, the write-back error flag, the stall flag of the zeroiser): `ExStage` models the result of an instruction, not its cycles.
- CheriSBND2 = 1, debug mode, lockstep, parity and shadow alerts, power gating.
- IT8 with CSETHIGH, which can form exponents above 24: the IT8 results assume exponents up to 24 and belong to the codecs, not to the machine.
- `TbreSafety.CpuStore`: the two parts of a split store are one event, at the snoop of the second; the engine is granted nothing in between.
- Arbitration in `rtl/cheri_tbre_wrapper.sv`, and zeroiser or DMA writes racing with the revocation engine.
- TBRE with 32- or 33-bit memory words, and memory errors on the engine's own stores, which it only latches in its error flag.
- Data words of the register file in `RegFileModel`: only capability metadata and reservation bits are modelled.
- Core-list comparison by data (`cmp_complex`), searching, insertion, and sorting an empty list, where the source dereferences a null tail.
- CoreList.MergeSort: of the data items' low halves it says only that each is unchanged or rebuilt, not which are compared.
- Run lengths in the mergesort are unbounded integers; `insize` stays below the list's length, so 32 bits suffice for lists of fewer than 2^31 nodes.
- ALU addition, comparison, logic, packing, shuffles and shifts: single-branch claims.
- MHPMCounterNum of 32 and more in the PMP register model's parameters, where the source's shift of a 32-bit one is undefined.
- Expected-value checking, printing and stop requests of the PMP register model's driver.
- Spike and TestRIG interfaces, DMA bus multiplexers, build and regression scripts.
