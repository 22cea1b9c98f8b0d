# ALSA driver package: verified models

This project models the parts of the ALSA driver package that compute something
and proves what they are for. Each module follows one source file or one
component of it.

* **Conditions** (`CondChain`, `CondTree`, `CondBuild`, `CondOptimize`,
  `CondExact`, `CondGuard`, `CondNormal`, `CondHeap`). The Kconfig translator keeps a condition as a flat
  chain of atoms with bracket counts, negation and connectors. `CondChain` gives
  chains a meaning by a left-to-right machine; `CondTree` shows that this is the
  meaning of the syntax trees of section 2.9.3 of the POSIX Shell Command
  Language, in both directions. Joining and copying produce conjunctions.
  Optimizing always ends and always keeps brackets nested. It keeps the meaning
  when each removal meets a guard, and four short chains show what happens without
  it. A guard is exact for what its rule looks at: outside it, some chain that looks
  the same there changes its meaning. `CondNormal` says what no result contains.
  `CondHeap` does all of this in place on linked nodes.
* **Walks** (`SelectClosure`, `Acinclude`, `PendingOrder`). The closure of `select`
  over possibly cyclic graphs, and the order in which blocks are printed over several
  passes, with the exact conditions for a block to come too early.
* **Formatting** (`NumberFormat`, `Vsnprintf`, `FormatLaws`). The format interpreter
  writes through a cursor that stops storing but keeps counting; its output is a
  prefix of the unbounded output. What each conversion prints follows from the
  characters of its specification, and numbers read back.
* **Codec registers** (`Bits`, `RegElem`, `CodecWords`, `Uda1380`). Mixer fields
  packed into registers, and a write-back cache with three gated dirty intervals that
  stays coherent over every run; what mutes and amplifiers do against the switches.
* **Division** (`Arith`, `Math64`), **minor numbers** (`SoundCore`), **DMA** (`PxaRing`,
  `S3cQueue`, `Sa11xxClock`) and **beeps** (`Beep`).

Code that changes things in place is written as classes and methods here, and each
method is proved against a function or a state predicate. Run
`dafny verify dfyconfig.toml` to check everything.

Where the code departs from what its comments intend, the code is followed:

* The optimizer loses a connector behind a removed closing term, ignores negation
  of always-true names and of duplicates, and ignores the connector in front of a
  duplicate (`CondExact`).
* A condition that comes twice stays twice when the second one has brackets of its
  own (`CondNormal.TwinsStay`).
* A needed dep that nobody asks for can lose its block (`Acinclude.LostBlock`).
* In a pass that puts deps off, a parent can be printed before its child
  (`Acinclude.ParentFirst`): exactly when the child is pending at the end of the pass
  (`PendingOrder.EarlyIffPending`).
* Capture unmutes on the playback switch (`CodecWords.UnmuteMatches`,
  `Uda1380.UnaskedUnmute`), and a capture source chosen while capture is off reaches
  the cache neither then nor when capture is turned on
  (`CodecWords.AmplifierIffSelected`, `Uda1380.SourceLost`).
* Releasing a playback pause with no saved position leaves playback spinning when
  capture was started meanwhile (`Sa11xxClock.ReleaseKeepsSpinning`).
* After a saved position the first transfer is a piece of the first period of the
  buffer, whatever period was saved (`Sa11xxClock.FirstAtSaved`,
  `Sa11xxClock.ResumedTooEarly`). Prepare does not forget a saved position, which may
  then lie behind the buffer (`Sa11xxClock.Chip.PrepareAndStart`,
  `Sa11xxClock.StaleStart`).
* One call that finds the DMA queue full still loads a buffer
  (`S3cQueue.Runtime.Enqueue`); no run of the driver makes such a call.
* A minor requested by index is not held against the upper bound
  (`SoundCore.BehindTheBound`).

## Model

| member | source | states |
|---|---|---|
| `CondTree.FlatExprRuns` | alsa/utils/mod-deps.c:1317-1334 | Reference meaning: a syntax tree of the AND-OR grammar, written out as a chain, is well nested and the chain machine computes the value of the tree (equal precedence, left associative) |
| `CondTree.Parse` | alsa/utils/mod-deps.c:35-60 | Every well-nested chain is the writing-out of some syntax tree, so the machine has no chain without a tree reading |
| `CondTree.ChainMeansTree` | alsa/utils/mod-deps.c:1317-1334 | The two together: the meaning of any well-nested chain is the value of a tree that is written exactly as that chain |
| `CondChain.BracketRun` | alsa/utils/mod-deps.c:660-671 | Bracketing a chain, in whatever state it is reached, applies the pending connector once to the meaning of the whole chain |
| `CondChain.BracketNests` | alsa/utils/mod-deps.c:687-690 | Bracketing keeps a chain well nested |
| `CondBuild.JoinMeans` | alsa/utils/mod-deps.c:676-692 | Joining gives a well-nested chain whose meaning combines both meanings by the connector the first chain ends in; that is their conjunction when it ends in AND |
| `CondBuild.DuplicateMeans` | alsa/utils/mod-deps.c:633-673 | The copy of a template stack is well nested and holds exactly when every level that is not EMPTY holds |
| `CondBuild.JoinAllMeans` | alsa/utils/mod-deps.c:694-704 | Whatever number of conditions and templates a dep collects, its chain is well nested and holds exactly when all of them do |
| `CondHeap.JoinCond` | alsa/utils/mod-deps.c:676-692 | On linked nodes: the result is one proper list of the nodes of both, holding the joined chain |
| `CondHeap.DuplicateCond` | alsa/utils/mod-deps.c:633-673 | On linked nodes: the copy consists of fresh nodes only, holds the duplicated chain, and nothing that existed before is written to |
| `CondHeap.CopyLevel` | alsa/utils/mod-deps.c:649-669 | One level is copied node by node into fresh nodes with the same contents |
| `CondHeap.Dep.AddDep` | alsa/utils/mod-deps.c:701-704 | The dep takes the parsed nodes over and its chain becomes the join |
| `CondHeap.Dep.AddTemplate` | alsa/utils/mod-deps.c:694-699 | The chain of the dep becomes its join with the copied stack, and the stack keeps nodes and contents |
| `CondHeap.Dep.Inspect` | alsa/utils/mod-deps.c:878-914 | The rule chosen and the bracket moved in place are those of the chain function |
| `CondHeap.Dep.Unlink` | alsa/utils/mod-deps.c:916-922 | Exactly the node at the cursor leaves the list, at the front or behind a predecessor |
| `CondHeap.Dep.ScanStep` | alsa/utils/mod-deps.c:869-929 | One turn of the scan: cancel brackets, apply the fitting rule, then on to the next node or back to the front |
| `CondHeap.Dep.OptimizeDep` | alsa/utils/mod-deps.c:861-932 | The loop with its restarts ends; the list holds the optimized chain, on nodes the dep had before, and every atom left is reduced in the sense of `CondNormal.NormalForm`; false is the error exit |
| `CondNormal.NormalForm` | alsa/utils/mod-deps.c:861-932 | What is left, in names, marks, brackets and connectors alone: no atom with brackets on both sides, none always true (or always false and negated) that is plain between ANDs or ends, closes one bracket behind an AND or opens one in front of an AND; and two neighbours of one name, both plain or one bracketed pair, exactly where the second still had brackets on both sides when the last scan came to the first |
| `CondNormal.TwinsStay` | alsa/utils/mod-deps.c:878-889 | A condition joined to itself keeps both atoms: the second has a bracket of its own when the first is looked at |
| `CondOptimize.NormalizeStep` | alsa/utils/mod-deps.c:871-877 | Cancelling matching brackets around one atom changes nothing in any machine state |
| `CondOptimize.RemoveNests` | alsa/utils/mod-deps.c:878-925 | Every removal, with no side condition, keeps the chain well nested and never meets the error exit |
| `CondOptimize.OptimizeNests` | alsa/utils/mod-deps.c:861-932 | With no side condition the whole optimization of a well-nested chain ends without the error exit, well nested and no longer than it was |
| `CondOptimize.DupTermRun` | alsa/utils/mod-deps.c:880-883 | A plain duplicate can go when the two values are equal or the first leaves the decision to the second, and the connector in front is the same or can decide nothing else |
| `CondOptimize.DupGroupRun` | alsa/utils/mod-deps.c:884-889 | A duplicate that is half of a bracketed pair can go under the same condition on the two values, whatever surrounds the pair |
| `CondOptimize.TrueOpenRun` | alsa/utils/mod-deps.c:906-914 | A true atom that opens a bracket can hand the bracket to its successor |
| `CondOptimize.CloseRun` | alsa/utils/mod-deps.c:898-905 | What an atom that closes a bracket does behind its predecessor, and what the predecessor does with that bracket, both from the step of the predecessor |
| `CondOptimize.FalseOpenRun` | alsa/utils/mod-deps.c:906-914 | A false atom that opens a bracket can go before a false one that does not stay inside |
| `CondOptimize.RemoveMeans` | alsa/utils/mod-deps.c:878-925 | A removal that meets its guard keeps the meaning of the whole chain in every environment that agrees with the name tables |
| `CondOptimize.OptimizeMeans` | alsa/utils/mod-deps.c:861-932 | Lifted through the scan and all restarts: if every removal on the way meets its guard, the optimized chain means what the original meant |
| `CondOptimize.TablesAreSane` | alsa/utils/mod-deps.c:1031-1041 | An environment that agrees with the tables of always-true and always-false names agrees with every mark put on a chain |
| `CondExact.TidyOptimizeMeans` | alsa/utils/mod-deps.c:861-932 | A condition on the input alone that is enough: one connector, each name in one polarity, no always-true name negated |
| `CondExact.OptimizedConjunction` | alsa/utils/mod-deps.c:694-704 | From parts to optimized result: the optimized join of all parts holds exactly when every part does |
| `CondGuard.SafeIsExact` | alsa/utils/mod-deps.c:878-914 | The guard of each of the five rules is exact: a removal keeps the meaning of every well-nested chain that looks the same there (same rule, same atoms, same connector in front or none, at the end or not) in every environment that agrees with its marks, if and only if the guard holds |
| `CondGuard.UnsafeDiffers` | alsa/utils/mod-deps.c:878-914 | The other half: outside the guard, marked atoms included, a chain that looks the same and an environment in which its meaning changes are built, with at most two atoms in front of the window and two behind |
| `CondExact.LostConnector` | alsa/utils/mod-deps.c:898-921 | The connector behind a removed closing term is lost: the optimizer leaves `P and N` of `(P and SND) or N`, with a differing environment |
| `CondExact.MixedDuplicate` | alsa/utils/mod-deps.c:878-883 | The connector in front of a duplicate is not looked at: the optimizer leaves `X and A` of `X and A or A` |
| `CondExact.OppositeDuplicate` | alsa/utils/mod-deps.c:878-883 | The polarity of a duplicate is not looked at: the optimizer leaves `not A` of `A and not A` |
| `CondExact.NegatedTruth` | alsa/utils/mod-deps.c:891 | The negation of an always-true name is not looked at: the optimizer leaves no condition of `not SND` |
| `CondExact.MaskedRemoval` | alsa/utils/mod-deps.c:878-883 | A removal outside its guard can still keep the meaning of a chain: the atoms around it hide it in `A or B and A or A` |
| `SelectClosure.SelectWalk.RemoveHitflags` | alsa/utils/mod-deps.c:1089-1098 | Every dep mark and every edge mark is cleared |
| `SelectClosure.SelectWalk.PrintSel` | alsa/utils/mod-deps.c:1192-1220 | The walk ends on cyclic graphs too; every edge of the visited dep is marked, no dep is printed twice, and whatever gets marked is reachable |
| `SelectClosure.SelectWalk.PrintSelects` | alsa/utils/mod-deps.c:1353-1355 | The deps marked and printed, each once, are exactly those reachable over two or more select edges |
| `SelectClosure.SelectWalk.HitReached` | alsa/utils/mod-deps.c:1203-1219 | With no edge under way, everything an expanded dep reaches is marked |
| `Acinclude.VisitSettles` | alsa/utils/mod-deps.c:1234-1384 | One visit on an acyclic graph: no block twice, blocks only appended, each printed dep behind the deps its condition names (up to pending ones in a non-final pass), and the visited dep is printed or pending |
| `Acinclude.CondsSettle` | alsa/utils/mod-deps.c:1262-1280 | The loop over a condition settles every dep it names before it ends, or stops with the parent pending; the parent itself is not printed meanwhile |
| `Acinclude.PassesComplete` | alsa/utils/mod-deps.c:1478-1492 | Over all passes: no dep is printed twice, every offered dep with a block is printed, and in the last pass each dep comes after every dep with a block that its condition names |
| `Acinclude.BlocksOfPasses` | alsa/utils/mod-deps.c:1244-1316 | Which blocks there are, in the flags of the deps: of those with a prompt, an int, or a default and a condition, exactly the toplevel ones that have a card name (with a prompt, not always true) or else are an int, select something, or have a default and a condition; nothing else but deps of the latter kind that a chain of conditions leads to; and with each block of the last pass those of all deps it names |
| `Acinclude.LostBlock` | alsa/utils/mod-deps.c:1269-1277 | A dep that is needed and has something to print can stay without its block: its parent is printed while it is put off, and no later pass comes back |
| `PendingOrder.VisitExact` | alsa/utils/mod-deps.c:1234-1384 | One visit of a pass that puts deps off: a parent is printed ahead of a dep with a block that it names if and only if that dep is pending afterwards; no printed dep becomes pending, and no pending one other than the visited one is printed |
| `PendingOrder.EarlyIffPending` | alsa/utils/mod-deps.c:1478-1487 | The same if-and-only-if over a whole pass |
| `PendingOrder.RetIffNotQuiet` | alsa/utils/mod-deps.c:1269-1277 | A visit reports that it put something off if and only if, seen in the state before it, some unprinted dep it gets to names a dep that is to be pending |
| `PendingOrder.PassRetIffNotQuiet` | alsa/utils/mod-deps.c:1478-1487 | A pass reports it if and only if, seen before the pass, some dep it gets to names one that is to be pending and that the pass does not print for its own sake first |
| `PendingOrder.QuietPassInOrder` | alsa/utils/mod-deps.c:1478-1487 | A pass that is quiet in that sense prints every offered dep with a block, each after the deps its condition names |
| `Acinclude.ParentFirst` | alsa/utils/mod-deps.c:1269-1277 | A graph of three deps on which that does happen |
| `Acinclude.Emitter.Process` | alsa/utils/mod-deps.c:1234-1384 | The recursive routine on its flags computes the visit, return value included |
| `Acinclude.Emitter.ProcessConds` | alsa/utils/mod-deps.c:1262-1281 | The loop over the condition computes the visits of its deps and the early return |
| `Acinclude.Emitter.OutputAcinclude` | alsa/utils/mod-deps.c:1478-1492 | The pass loop, with its limit of five and its final pass, computes the run the theorems speak of; from the start, its blocks are those of `Acinclude.BlocksOfPasses` |
| `Vsnprintf.Vsnprintf` | alsa/acore/memory_wrapper.c:163-397 | For every format, argument list and size: the same length is returned, the buffer holds the first min(length, size - 1) characters and a NUL, nothing else is written, nothing at all for size 0; a size that is negative as an int gives 0. The size may exceed the buffer when the output and its NUL fit |
| `Vsnprintf.Cursor.Put` | alsa/acore/memory_wrapper.c:197-199 | One character through the bounded cursor: stored below the end only, counted always |
| `Vsnprintf.Cursor.FormatStep` | alsa/acore/memory_wrapper.c:195-387 | One character or directive always moves on in the format, and what is written and what is left to write together stay the same |
| `Vsnprintf.Cursor.ScanSpec` | alsa/acore/memory_wrapper.c:203-254 | Flags, width, precision and qualifier are scanned as the specification functions read them, with the arguments that `*` takes |
| `Vsnprintf.Cursor.DoConvert` | alsa/acore/memory_wrapper.c:259-387 | Each conversion writes its text, takes its arguments and stops in the format where the specification says, a dangling `%` included |
| `Vsnprintf.Cursor.Number` | alsa/acore/memory_wrapper.c:70-161 | The printer writes sign, prefix, padding and digits in the order of the specification text; a base out of range writes nothing |
| `Vsnprintf.Cursor.Convert66` | alsa/acore/memory_wrapper.c:104-108 | The digit loop stays inside its 66 characters for every 64-bit number and base and leaves the digits last first |
| `Vsnprintf.Cursor.SplitSign` | alsa/acore/memory_wrapper.c:84-97 | Sign character, magnitude and remaining width, for a negative 64-bit number too |
| `Vsnprintf.PrintedIntReadsBack` | alsa/acore/memory_wrapper.c:348-387 | `%d` with any flags, any width and any precision prints text that reads back as the int argument |
| `FormatLaws.DirectiveReads` | alsa/acore/memory_wrapper.c:203-254 | A specification written out as flags, width, precision, qualifier and letter is scanned to what these characters say, `*` taking arguments |
| `FormatLaws.UnsignedLaw` | alsa/acore/memory_wrapper.c:338-387 | `%o`, `%u`, `%x`, `%X`: blanks, prefix, zeros, digits, blanks; the digits denote the argument modulo 2^32, 2^16 or 2^64 in base 8, 10 or 16, small letters or capitals; what width, precision and each of the flags do |
| `FormatLaws.SignedLaw` | alsa/acore/memory_wrapper.c:348-387 | `%d`, `%i`: the same for the signed value in base 10, with `-`, or `+` or a blank where the flags ask for it |
| `FormatLaws.PointerLaw` | alsa/acore/memory_wrapper.c:305-313 | `%p`: the word in base 16 with small letters, in 16 places filled with zeros when no width is given |
| `FormatLaws.StringLaw` | alsa/acore/memory_wrapper.c:279-303 | `%s`: the string up to its first NUL or as much as the precision allows, blanks in front, or behind with `-` |
| `FormatLaws.CharLaw` | alsa/acore/memory_wrapper.c:260-277 | `%c`: the low byte of the argument in its field |
| `FormatLaws.PercentLaw` | alsa/acore/memory_wrapper.c:331-365 | `%%`, an unknown letter and a `%` at the end print themselves and take no argument |
| `FormatLaws.PlainText` | alsa/acore/memory_wrapper.c:195-201 | Text without a `%` is printed as it is |
| `NumberFormat.NumberTextLength` | alsa/acore/memory_wrapper.c:111-159 | The text has max(width, sign + prefix + max(precision, digits)) characters |
| `NumberFormat.DigitsValue` | alsa/acore/memory_wrapper.c:104-108 | The digits printed, read in their base, denote the number |
| `NumberFormat.DigitsBound` | alsa/acore/memory_wrapper.c:72 | A k-bit number has at most k digits in any base |
| `NumberFormat.DecimalRoundTrip` | alsa/acore/memory_wrapper.c:70-161 | Whatever the width, precision and flags, decimal output reads back as the signed or unsigned number printed |
| `NumberFormat.AtoiRoundTrip` | alsa/acore/memory_wrapper.c:61-68 | `skip_atoi` reads plain decimal output of a number back and stops at its end |
| `RegElem.EncodeTwice` | alsa/i2c/uda1380.c:253-256 | Rotating and inverting a channel twice in the same order gives the value back, in all four combinations |
| `RegElem.GetAfterPut` | alsa/i2c/uda1380.c:271-326 | Reading a control after setting it gives the values set, for stereo or mono, inverted, rotated and shifted fields and every old register value |
| `RegElem.StoredChannel` | alsa/i2c/uda1380.c:253-256 | What is stored of a value: turned by half the range when rotated, then counted down from the top when inverted |
| `RegElem.FieldStored` | alsa/i2c/uda1380.c:304-321 | Where it is stored: the bits of the field hold the channels at the shift, left above right |
| `RegElem.PutKeepsOthers` | alsa/i2c/uda1380.c:320-321 | Setting a control changes no bit outside its field, whatever is written |
| `RegElem.ControlsIndependent` | alsa/i2c/uda1380.c:296-326 | Setting one control leaves what every control with a disjoint field reads as it was |
| `RegElem.ControlTable` | alsa/i2c/uda1380.c:348-355 | The declared controls are well formed and clear of the mute bits of their registers |
| `RegElem.ControlsApart` | alsa/i2c/uda1380.c:348-355 | Declared controls that share a register have disjoint fields |
| `Bits.FieldHolds` | alsa/i2c/uda1380.c:237 | A masked write puts just the masked value into the field |
| `Bits.OutsideMask` | alsa/i2c/uda1380.c:237 | A masked write keeps every bit outside the mask |
| `Bits.WriteOutside` | alsa/i2c/uda1380.c:237 | Two words that are equal outside another mask stay so under the same masked write |
| `Uda1380.Codec.Activate` | alsa/i2c/uda1380.c:810-833 | After activation the cache is coherent, with the three first settings written and all other registers as the codec came up; with both mutes set, the codec does as it is told |
| `Uda1380.Codec.HwsyncWrite` | alsa/i2c/uda1380.c:103-158 | A write needs power and, for the sections of the streams, the clock bit in the register 0x00 of the codec; it copies just the registers named, and the transfer is logged |
| `Uda1380.Codec.CacheFlush1` | alsa/i2c/uda1380.c:165-173 | Flushing a section brings it into the codec, empties its interval and touches no other section |
| `Uda1380.Codec.CacheTryFlush` | alsa/i2c/uda1380.c:175-185 | Just the sections whose gate is open are brought into the codec; the others keep their intervals |
| `Uda1380.Codec.CacheDirtyZone` | alsa/i2c/uda1380.c:187-209 | With a changed zone marked, all sections are coherent again and open ones have nothing left to flush |
| `Uda1380.Codec.CacheDirtyAll` | alsa/i2c/uda1380.c:216-222 | Without power every section becomes dirty from end to end |
| `Uda1380.Codec.RegElemPut` | alsa/i2c/uda1380.c:296-326 | A mixer write stores the encoded value in the cache, changes no other register and keeps the cache coherent; outside the power registers it keeps the whole invariant |
| `Uda1380.Codec.AgcSet` | alsa/i2c/uda1380.c:452-460 | The AGC bit is set or cleared through the cache, and nothing else changes |
| `Uda1380.Codec.PlaybackSwitchSet` | alsa/i2c/uda1380.c:416-427 | The request is kept; the mute bit follows it only while playback is on |
| `Uda1380.Codec.CaptureSwitchSet` | alsa/i2c/uda1380.c:434-445 | The request is kept; the mute bit follows it only while capture is on |
| `Uda1380.Codec.HpConnected` | alsa/i2c/uda1380.c:477-492 | The headphone power bit follows a change only while playback is on |
| `Uda1380.Codec.SelectCaptureSource` | alsa/i2c/uda1380.c:494-532 | Selection and amplifier power are switched over only while capture is on; the registers then select the source if and only if capture was on or they did before |
| `Uda1380.Codec.WaitMute` | alsa/i2c/uda1380.c:609-621 | Polling ends, changes only the status register, keeps the cache coherent, and succeeds exactly when the mute state last read is the wanted one |
| `Uda1380.Codec.PlaybackTurnOn` | alsa/i2c/uda1380.c:655-687 | Power, clock, flush and unmute: the whole new content of 0x00, 0x02 and 0x13, the cache coherent and section 1 flushed |
| `Uda1380.Codec.PlaybackTurnOff` | alsa/i2c/uda1380.c:689-713 | Mute before power-down: the whole new content of 0x00, 0x02 and 0x13, with every transfer made while its gate is open |
| `Uda1380.Codec.CaptureTurnOn` | alsa/i2c/uda1380.c:715-752 | The same for capture, with both exact conditions: when its mute agrees with the capture switch, and when the amplifier of the wanted source has power |
| `Uda1380.Codec.CaptureTurnOff` | alsa/i2c/uda1380.c:754-780 | The same for capture power-down |
| `Uda1380.Codec.OpenStream` | alsa/i2c/uda1380.c:782-794 | An opened stream is on and its section in the codec; what is in the power and mute registers; mixer fields are kept |
| `Uda1380.Codec.CloseStream` | alsa/i2c/uda1380.c:796-808 | A closed stream is off; what is in the power and mute registers; mixer fields are kept |
| `Uda1380.Codec.Suspend` | alsa/i2c/uda1380.c:835-844 | Streams go off while there is power, with what that leaves in the power and mute registers, then everything is dirty; mixer fields are kept |
| `Uda1380.Codec.Resume` | alsa/i2c/uda1380.c:846-855 | Whatever the reset left in the codec, section 0 and the sections of opened streams equal the cache, and streams are on as opened, with the power and mute registers that gives |
| `Uda1380.Codec.Run` | alsa/i2c/uda1380.c:103-222 | Over every run of allowed calls: each register equals the codec or is in a dirty interval, an open gate has nothing to flush, every bus write so far found the clock of its section running in the codec, and clock and converter bits are on for just the streams that are on; from activation on, just the amplifier of the selected input has power while capture is on; and if mutes and headphone amplifier were as asked at the start, they are so at the end, the capture mute following the last of playback switch at turn-on and capture switch since |
| `Uda1380.Codec.SuspendPutsResume` | alsa/i2c/uda1380.c:835-855 | Suspend, any mixer writes, resume: codec equals cache in section 0 and each opened section, streams on as opened, and every control reads the last value put, or its old value if none was |
| `Uda1380.LastPutWins` | alsa/i2c/uda1380.c:296-326 | A control keeps its last value through any writes to all the others |
| `Uda1380.ReadsThroughMutes` | alsa/i2c/uda1380.c:271-294 | No control sees the mute bits |
| `CodecWords.UnmuteMatches` | alsa/i2c/uda1380.c:743-746 | After capture is turned on, its mute agrees with the capture switch if and only if that switch is on just when the playback switch is on or the mute was off before |
| `CodecWords.AmplifierIffSelected` | alsa/i2c/uda1380.c:728-737 | Turning capture on powers the amplifier of the wanted source, and only that one, if and only if the registers select this source already; the selection is not touched |
| `CodecWords.SwitchedSelects` | alsa/i2c/uda1380.c:504-528 | Switching the source over with capture running selects it |
| `CodecWords.PlaybackStartedObeys` | alsa/i2c/uda1380.c:655-687 | Once playback is on, its mute follows the playback switch and the headphone amplifier follows the plug |
| `CodecWords.CaptureStartedObeys` | alsa/i2c/uda1380.c:715-752 | Once capture is on, its mute follows the playback switch, and playback is left as it was |
| `CodecWords.PlaybackStartedClock` | alsa/i2c/uda1380.c:661-669 | Turning playback on sets bits 0x0300 of register 0x00 and 0x0400 of register 0x02 and leaves the clock and converter bits of capture |
| `CodecWords.PlaybackStoppedClock` | alsa/i2c/uda1380.c:706-710 | Turning playback off clears its clock bit and leaves those of capture |
| `CodecWords.CaptureStartedClock` | alsa/i2c/uda1380.c:721-737 | Turning capture on sets bits 0x0c00 of register 0x00 and 0x0005 of register 0x02 and leaves those of playback |
| `CodecWords.CaptureStoppedClock` | alsa/i2c/uda1380.c:770-777 | Turning capture off clears its clock bit and leaves those of playback |
| `CodecWords.ActivatedClock` | alsa/i2c/uda1380.c:826-830 | Activation leaves both clock bits off |
| `Uda1380.Codec.CodecClock` | alsa/i2c/uda1380.c:655-780 | Between calls with power on, registers 0x00 and 0x02 of the codec itself have the clock and converter bits of just the streams that are on |
| `CodecWords.PutKeepsMutes` | alsa/i2c/uda1380.c:296-326 | Mixer writes leave both mutes as they are |
| `CodecWords.CaptureStartedPowered` | alsa/i2c/uda1380.c:728-737 | Once capture is on, just the amplifier of the selected input has power |
| `CodecWords.SourceSwitchedPowered` | alsa/i2c/uda1380.c:504-528 | Switching the source over with capture running leaves power to just the amplifier of the new source |
| `CodecWords.PlaybackKeepsInputs` | alsa/i2c/uda1380.c:659-667 | What playback writes to the power register is clear of the input amplifiers |
| `Uda1380.SourceLost` | alsa/i2c/uda1380.c:504 | A run on which the choice is lost: microphone chosen with capture off, capture opened, and the line input stays selected and powered |
| `Uda1380.UnaskedUnmute` | alsa/i2c/uda1380.c:743 | Two runs that leave capture unmuted against its switch: the playback switch on, or both switches off and a codec that came up with its mute off |
| `Math64.Shift` | alsa/include/math64_compat.h:65-74 | One turn of the loop keeps the account of the dividend and bounds the rest |
| `Math64.Finish` | alsa/include/math64_compat.h:74-78 | After the early exit the native quotient fits below the bits found, so that OR is addition |
| `Math64.QuotientBound` | alsa/include/math64_compat.h:65-74 | The partial quotient never has more than 32 bits |
| `Math64.Turn` | alsa/include/math64_compat.h:65-73 | While the loop runs there is a place left to look at |
| `Math64.Divl` | alsa/include/math64_compat.h:59-84 | Quotient and remainder of the double word, the quotient in 32 bits, when the high word is below the divisor |
| `Math64.DivU64Rem` | alsa/include/math64_compat.h:86-101 | n = q * div + r with r < div for every 64-bit n and nonzero 32-bit div |
| `SoundCore.InsertKeepsChain` | sound/sound_core.c:205-220 | Inserting where the scan stopped keeps the chain ascending and of one residue, adds just that minor, and is undone by removing it |
| `SoundCore.Chains.FindHole` | sound/sound_core.c:178-193 | The scan stops at the least free candidate and at its place, or past the bound with all candidates taken |
| `SoundCore.Chains.InsertLocked` | sound/sound_core.c:174-221 | First free or one given minor, inserted in its place; on failure the chain is as it was; -ENOENT exactly when all candidates are taken |
| `SoundCore.Chains.RemoveLocked` | sound/sound_core.c:227-241 | The unit with the minor is taken out, or nothing changes |
| `SoundCore.Chains.TryInsert` | sound/sound_core.c:263-291 | A unit refused by the chrdev layer leaves the chain exactly as it was |
| `SoundCore.Chains.InsertUnit` | sound/sound_core.c:254-301 | The retry loop ends; the minor given out is the least candidate neither taken nor refused, -ENOENT exactly when there is none, -EBUSY exactly when a requested minor is taken or refused; a minor given out is below the bound exactly when none was requested or the requested one is |
| `SoundCore.Chains.LookFor` | sound/sound_core.c:568-580 | Giving up at the first larger minor finds just what membership finds |
| `SoundCore.Chains.RemoveUnit` | sound/sound_core.c:309-323 | Afterwards just the other minors are taken |
| `SoundCore.Chains.RegisterSpecial` | sound/sound_core.c:361-424 | The request is answered on chain `unit % 16` from the unit up, below 256, or for just that unit when it is one of the two sequencers, 1 and 8 |
| `SoundCore.Chains.RegisterMixer` | sound/sound_core.c:447-451 | Answered on chain 0, first free below 128 |
| `SoundCore.Chains.RegisterMidi` | sound/sound_core.c:467-471 | Answered on chain 2, first free below 130 |
| `SoundCore.Chains.RegisterDsp` | sound/sound_core.c:495-499 | Answered on chain 3, first free below 131 |
| `SoundCore.Chains.Run` | sound/sound_core.c:174-323 | Every run of registrations, refusals and removals keeps all sixteen chains ascending and of their own residue |
| `SoundCore.BehindTheBound` | sound/sound_core.c:194-203 | Mixers requested by index get minor 128, at the bound, and minor 256, behind all the minors there are |
| `PxaRing.Tiles` | alsa/arm/pxa2xx-i2sound.c:204-225 | Every transfer has 1 to 4096 bytes and begins where the one before it ends; the last one of a period ends where the period ends |
| `PxaRing.EveryByteCovered` | alsa/arm/pxa2xx-i2sound.c:204-227 | Every byte of the buffer lies in some transfer |
| `PxaRing.NoByteTwice` | alsa/arm/pxa2xx-i2sound.c:204-227 | No byte lies in two transfers |
| `PxaRing.WholeBuffer` | alsa/arm/pxa2xx-i2sound.c:169-227 | For a buffer of whole periods the transfers cover exactly the buffer |
| `PxaRing.RingLaw` | alsa/arm/pxa2xx-i2sound.c:200-228 | The whole ring entry by entry: it starts with the buffer, each transfer ends where the next begins and the last one with the last period, none has more than 4096 bytes or, but for the end of a period, less; the interrupt comes exactly at the ends of periods, and each link is the address of the next 16-byte descriptor or of the first |
| `PxaRing.FillRing` | alsa/arm/pxa2xx-i2sound.c:200-228 | The loops fill the array with the ring, closed at its end |
| `PxaRing.FillPeriod` | alsa/arm/pxa2xx-i2sound.c:205-226 | The inner loop fills one period and flags its last descriptor, leaving earlier ones alone |
| `PxaRing.NoIrqBefore` | alsa/arm/pxa2xx-i2sound.c:226 | In each period exactly the last descriptor has the interrupt |
| `PxaRing.OneLap` | alsa/arm/pxa2xx-i2sound.c:209-228 | From the first descriptor the links visit each one once, in order, and come back after exactly one lap |
| `PxaRing.RateEngine.RequestRate` | alsa/arm/pxa2xx-i2sound.c:252-272 | All streams in use run at the one engine rate; a request is granted exactly when it is that rate, or nobody else uses the engine and the hardware takes it |
| `PxaRing.RateEngine.FreeRate` | alsa/arm/pxa2xx-i2sound.c:274-279 | The stream no longer counts as a user; the rate stays |
| `S3cQueue.SlotIsCyclic` | alsa/arm/s3c24xx-iis.c:280-285 | The k-th accepted buffer is period k modulo the number of periods, inside the buffer |
| `S3cQueue.Runtime.Enqueue` | alsa/arm/s3c24xx-iis.c:266-289 | How many buffers a call loads, until the limit is reached or the DMA layer refuses; they follow in order; the limit is exceeded exactly when the queue was full already and the DMA layer takes one |
| `S3cQueue.Runtime.Buffdone` | alsa/arm/s3c24xx-iis.c:292-330 | A completion of a running stream tops the queue up until it is full again or the DMA layer refuses; a stopped one does nothing |
| `S3cQueue.Runtime.PrepareStream` | alsa/arm/s3c24xx-iis.c:666-709 | The cursor starts at the front of the new buffer with nothing queued |
| `S3cQueue.Runtime.TriggerStart` | alsa/arm/s3c24xx-iis.c:747-754 | As many buffers are queued as the limit and the DMA layer allow |
| `S3cQueue.Runtime.Queued` | alsa/arm/s3c24xx-iis.c:266-330 | The queue is a stretch of consecutive periods that ends just before the cursor, each inside the buffer |
| `S3cQueue.Runtime.Run` | alsa/arm/s3c24xx-iis.c:266-330 | Over every run of prepare, start, stop and completions the queue is that stretch and within its limit |
| `Sa11xxClock.AheadInRing` | alsa/arm/sa11xx-uda1341.c:518-520 | Stepping from period to period is addition modulo the size of the ring |
| `Sa11xxClock.AudioStream.ProcessDma` | alsa/arm/sa11xx-uda1341.c:463-522 | The fill loop ends, with the whole new state: an active stream hands over as many transfers as the channel takes and the ring still has, whole periods in ring order but for the first one after a saved position; a spinning or stopped one none |
| `Sa11xxClock.AudioStream.TakeOldOffset` | alsa/arm/sa11xx-uda1341.c:492-502 | The period of a saved position and the offset within that period, which is what is handed on |
| `Sa11xxClock.FirstAtSaved` | alsa/arm/sa11xx-uda1341.c:492-507 | The first transfer after a saved position lies as many whole periods before it as there are in front of it; it starts at that position if and only if the position lies in the first period |
| `Sa11xxClock.FilledValid` | alsa/arm/sa11xx-uda1341.c:489-521 | A fill hands over only pieces of the buffer and keeps the period numbers in range, unless it begins with a position saved behind the buffer and the channel refuses the first transfer: an if-and-only-if |
| `Sa11xxClock.FillCount` | alsa/arm/sa11xx-uda1341.c:489-521 | A fill adds as many transfers as the channel takes and as there are periods not under way |
| `Sa11xxClock.FillFollows` | alsa/arm/sa11xx-uda1341.c:504-520 | Each transfer of a fill but the first is one period long and begins where the one before ended, or in front; the second one after a saved position goes on behind the period saved |
| `Sa11xxClock.NothingQueued` | alsa/arm/sa11xx-uda1341.c:489-521 | A fill of an active stream hands over nothing if and only if the channel takes nothing or all periods still count as under way, as they may when a pause is released |
| `Sa11xxClock.StartsInFront` | alsa/arm/sa11xx-uda1341.c:489-521 | Behind prepare, a saved position makes no difference to a fill if and only if there is none or it comes to the front of a buffer of the new size |
| `Sa11xxClock.Chip.PrepareStream` | alsa/arm/sa11xx-uda1341.c:686-702 | The counters of the stream start at 0 and nothing else changes, a saved position included; it lies in the new buffer exactly when it is small enough |
| `Sa11xxClock.Chip.TriggerStart` | alsa/arm/sa11xx-uda1341.c:563-581 | The whole new state of both streams: the stream is active and filled, the other one at most spins, and playback spins exactly while capture runs alone |
| `Sa11xxClock.Chip.TriggerStop` | alsa/arm/sa11xx-uda1341.c:582-607 | The whole new state of both streams: the stream is stopped, nothing is queued, and the clock is right again |
| `Sa11xxClock.Chip.DmaCallback` | alsa/arm/sa11xx-uda1341.c:529-544 | The whole new state: one period less is under way unless the stream spins, and it is topped up, from a saved position too |
| `Sa11xxClock.Chip.PausePush` | alsa/arm/sa11xx-uda1341.c:632-660 | The whole new state of both streams: the paused one inactive, its position saved while capture runs, and the clock right |
| `Sa11xxClock.Chip.PauseRelease` | alsa/arm/sa11xx-uda1341.c:661-677 | The whole new state of both streams; and the clock is right afterwards if and only if playback was not left spinning without a saved position (capture: when nothing was saved, or playback has the clock) |
| `Sa11xxClock.ReleaseKeepsSpinning` | alsa/arm/sa11xx-uda1341.c:661-671 | A run on which that fails: playback started and paused, capture started, playback released, and playback is active and still spins |
| `Sa11xxClock.Chip.Run` | alsa/arm/sa11xx-uda1341.c:463-677 | Over every run of prepare, start, stop, callbacks and pauses on both streams, as long as each release meets that condition and a stream with a saved position is prepared with a buffer that holds it: playback spins exactly while capture runs alone, capture never, all period numbers are in range and every transfer lies in its buffer |
| `Sa11xxClock.Chip.PrepareAndStart` | alsa/arm/sa11xx-uda1341.c:686-702 | A stream prepared and started begins at the front of its buffer if and only if no position was saved, or one that comes to the front of this buffer; for a position inside the buffer, if and only if it is the front |
| `Sa11xxClock.Chip.Play` | alsa/arm/sa11xx-uda1341.c:463-544 | A stream prepared and started with nothing saved, and called back any number of times, hands over frames `k % n * frames` on with its k-th transfer |
| `Sa11xxClock.ResumedTooEarly` | alsa/arm/sa11xx-uda1341.c:492-507 | Any playback paused behind its first period while capture runs, then released, hands over a piece of the first period |
| `Sa11xxClock.StaleStart` | alsa/arm/sa11xx-uda1341.c:686-702 | A run on which a stream prepared with a smaller buffer starts from a position saved behind that buffer |
| `Beep.PeriodBounds` | alsa/ppc/beep_old.c:124-141 | A pitch that passes the guard has a period of 512 up to 131072 units |
| `Beep.SampleBounds` | alsa/ppc/beep_old.c:141-144 | At least one cycle, 2 to 512 samples, and a phase that falls short of the cycles by less than one unit a sample |
| `Beep.PitchPlayed` | alsa/ppc/beep_old.c:141-144 | The pitch played is at least the pitch asked for, and less than it would be with two samples fewer |
| `Beep.FallbackAccepted` | alsa/ppc/beep_old.c:124-128 | The fallback pitch passes the guard exactly for sample rates from 1500 up to 384000 |
| `Beep.SampleFits` | alsa/ppc/beep_old.c:147-150 | The table index is in range and every sample fits in 16 bits |
| `Beep.Beeper.FillWave` | alsa/ppc/beep_old.c:145-150 | The accumulator loop fills both channels with the waveform at phase i * f modulo 65536 |
| `Beep.Beeper.Mksound` | alsa/ppc/beep_old.c:105-168 | The buffer always holds the waveform of the remembered pitch and volume, recomputed or not; a busy beeper changes nothing; a refused pitch becomes 750 Hz for 12 ticks |

## Left out

- CondOptimize.OptimizeMeans: goes from the guards to the kept meaning only. For one chain the converse is false (`CondExact.MaskedRemoval`): the atoms around a removal outside its guard can hide it.
- CondGuard.SafeIsExact: requires that atoms of the window with one name have one mark, as the lookup by name gives it.
- PendingOrder.QuietPassInOrder: a pass that is not quiet can still print all its blocks in order, when nothing it prints names a dep put off; `PendingOrder.EarlyIffPending` says which blocks come too early.
- Acinclude.BlocksOfPasses: of a dep that is needed but not asked for it says when its block can be there, and that it is there when a block of the last pass names it; the blocks that earlier passes lose are shown by `Acinclude.LostBlock`.
- Acinclude.VisitSettles: conditions between toplevel deps must be acyclic; on a cycle the source recurses without end. Names are resolved beforehand to indices, and the text of a block, its select lines included, is not modelled.
- SelectClosure.SelectWalk.PrintSelects: every select entry must be resolved to a dep, as the source dereferences the entry's dep unchecked.
- Vsnprintf.Vsnprintf: words are those of an LP64 machine; a missing argument or one of another type, which C leaves undefined, reads as 0 or as the null string; `%n` takes its argument but stores nothing; widths, precisions and the returned count are not cut to 32 bits; wrap-around of `buf + size` is not modelled.
- Vsnprintf.Cursor.DoConvert: a `%n` directive writes to memory of the caller, which is not part of this model.
- Uda1380.Codec.HwsyncWrite: I2C transfers succeed; the software-reset register 0x7f and the byte order on the bus are not modelled.
- Uda1380.Codec.Activate: one step, without the failures of I2C attachment and headphone set-up; its own transfers are not in the log, and the one to register 0x22 finds the capture clock off.
- Uda1380.Codec.HpConnected: the line-out notification is not modelled.
- Uda1380.Codec.WaitMute: the status a codec reports is arbitrary, and callers ignore the result as the source does.
- Uda1380.Codec.Run: streams are opened only with power, and resume follows suspend. Locks make every call one step; line-out, microphone and line-in notifications and the headphone work queue are not modelled.
- Math64.Divl: 32-bit and 64-bit words are naturals with proved bounds; the shift of a zero quotient by 32 places, undefined in C when the loop does not run, is taken to be zero.
- `div_u64` of the generic branch passes its uninitialised remainder where `divl` takes an address, so it has no defined behaviour to model; the i386 assembly branch is not modelled either.
- SoundCore.Chains.InsertUnit: chains are sequences in an array rather than linked nodes; the scan loops are the same. Device names, device nodes and failing allocation are left out, as is the unit that the -EBUSY path never frees. The chrdev layer's refusals are a fixed set during one call.
- PxaRing.FillRing: allocation, alignment of the ring and the port side of each descriptor are left out; addresses do not wrap.
- PxaRing.RateEngine.RequestRate: whether the hardware takes a rate is a parameter.
- S3cQueue.Runtime.Run: the PCM layer prepares only stopped streams and starts only prepared ones; the register operations of prepare and start, and the failing wait for the L/R clock, are left out. The two completion callbacks are alike and modelled once.
- Sa11xxClock.Chip.Run: a release that does not meet the condition of `Sa11xxClock.Chip.PauseRelease`, and a prepare with a buffer that does not hold the saved position, are not part of these runs; suspend and resume are left out.
- Sa11xxClock.AudioStream.ProcessDma: the DMA address and the frame size are left out, transfers being counted in frames. On a spinning stream the endless loop runs until the channel refuses a buffer.
- Beep.Beeper.Mksound: the volume is 0 to 100, as the mixer control accepts, and the sample rate is one for which the fallback pitch passes the guard; timer, DMA start and the busy state of the PCM streams are a parameter or left out.
- Reading Kconfig files, tokenising conditions, help text, makefile output and the printed position of a negation in mod-deps.c: text input and output.
- HAL2, serial MIDI, Keywest, PMac detection, USB, PnP and ISA tables, probing and removal: hardware plumbing and fixed tables.
- Wrapper files, headers of registers and constants, and small helpers such as bit reversal, `gcd` and jiffies conversion: they would add easy members only.
