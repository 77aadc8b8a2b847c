# Proofs about the memory manager

A model of the memory manager's hardest parts in Dafny 4.11, and proofs about the model. `dafny verify dfyconfig.toml`
checks the whole project.

## What is modelled

**The cellblock allocator** (`locus_carcerum`). A cellblock is one stretch of memory with a persistent tier growing up
from its base and a temporary tier growing down from its top, and both boundaries are halves of one machine word.

- `CarcerPasses` is the protocol: a step machine of K contexts over the memory itself, each step one atomic operation.
  A pass badges in, reads the closed bit, reads the word ahead, moves a boundary by one fetch-add, records what was
  refused, stores its cell's owner word and then its header, and lets its lane go. A cell's holder may store in its
  payload at any time. A writer takes the closed bit, drains, settles, works alone and opens again. The state carries
  beside the machine words the two chains of granted cells and what each context was refused since the last settle, and
  `RunKeeps` proves the words and the memory equal to them in every state of every interleaving. `CarcerBounds` is the
  word and its one fetch-add, on any half width, and `CarcerGrants` the granted cells and how far memory holds them.
  `CarcerTakes` follows one take through its run: what it asked for as it entered is what it is granted and what its
  words read. `CarcerProgress` proves that no context is ever stuck.
- `CarcerHeap` is the block behind the protocol: a class over an array of words, one word a grain, with the entries
  and the writer's paths as the methods that change it. `CarcerCells` is the tiling of that memory by cells and the
  walks over it as functions of the tiling, `CarcerTiers` is the two tiers together with the accounts, `CarcerMoves`
  is what one relocation does, `CarcerMover` is the mover behind its slots, and `CarcerSlots` is the slot table.
- `CarcerBridge` joins the two in two lemmas. `HandsOver` proves of every run that a writer whose drain is over stands
  before a block in `SeriesCellularum.Displaced`, tiled by the cells granted and laid, which is what every writer's
  method starts from. `HandsBack` proves that the `Valid` block those methods leave is one the machine's writer may
  leave.
- `CarcerSweeps` is the walk of the persistent tier with gives between its steps, `CarcerClaims` slot claims and
  releases that race, `CarcerMarks` the marks of the temporary tier and what every entry does to them, and `CarcerRuns`
  short runs that end where an entry's promise does not hold.

**The ring** (`memoria_anularis`). `AnularisStream` is the step machine of one producer and one consumer,
`AnularisMover` the width cascade and the two-run move around the buffer's end, `AnularisRing` the entries as a class,
`AnularisSegments` the two segment counters that wrap with the word, and the sizes a fresh ring is laid with.

**Bounded strings** (`cellularum_laboro`, `verbum_scrutor`). `CellularumLanes` gives each lane and mask operation its
meaning a lane at a time on words of 2, 4 or 8 bytes. `CellularumCompare` and `CellularumFind` are the walks, each
proved against a definition that goes a byte, or a start, at a time. `VerbumScrutor` proves the 64-bit arithmetic
behind the lane operations equal to those meanings.

**The DMA schedule** (`praet_ordo`). `PraetOrdo` is each entry as a function of the state, the class whose methods
make exactly those state changes, and what every run keeps. A flag word is its core, its statuses and its region.
`PraetFields` states in a channel's own fields what each entry and each poll of a run leaves there, and follows a
transfer from its attach to its verdict. `PraetPoll` takes the poll apart into its steps, with raises and nested polls
between any two of them. `PraetDescriptor` is the direction a transfer's words are walked in.

**The bit writer, the copies and the bit counts** (`bitorum_introitus_exitus`, `memoria_operor`, `clz`).
`BitorumWriter` gives the stream a value: the number its bits spell. `MemoriaOperor` is the block copies over one
memory. `BitCounts` is every branchless count against the zeros counted one at a time. `WordArithmetic` holds the
products and remainders the rest uses.

## Where the code and its words part

- **Relocation and the accounts.** A cell the mover carries into a run one or two grains larger than itself takes the
  whole run, and the difference is counted to nobody. `MoveDrifts` is such a move, `MoveConserves` is exactly when
  none of it happens, and `LedgerBalances` states the accounts with the uncounted grains beside them: without moves
  they are zero and every account is exact.
- **Marks of the temporary tier.** A mark is a bare load of the top, and a rewind takes it for a cell's edge. A single
  give that trims the top past it and a take after it, or the growth of the cell that stands at it, leave the mark inside
  a cell. The rewind then counts that cell off and puts the top inside it. `StaleMark` and `GrownMark` are two such runs.
  `Rewound` takes any mark and proves the block at rest after it if and only if the mark lies on an edge, and
  `MarkStands` proves that a mark read at rest stays on one through every entry since if and only if none of them raised
  the top past it or grew the cell at it. A mark read while a refused take is unsettled is not the tier's top at all,
  which `Mark` states.
- **The tier a give reads.** A give reads its cell's tier off a boundary word that a refused take may have displaced.
  `Given` proves the accounts hold after it unless it frees a temporary cell below the end as the word reads it, and
  `MisreadTier` is such a run.
- **The watchdog.** A channel whose keepalive window runs past the end of the microsecond counter reads stalled at the
  very instant it was submitted or kicked. `StallsAtOnce` proves that this is exactly when, and `StalledUnmoved` is such
  a submit.
- **The upward copy.** Its comment asks that the two regions never overlap, and its own table and the shim use it for
  a destination below its source. `Cpy` is proved for every such overlap.
- **Sieve rows.** A row whose every remaining byte costs 255 falls back to offset 0, taken or not. `PickRows` states
  it, and `Find` does not depend on the rows.
- **Consuming past the head.** The tail goes past the head, and the ring then reports its capacity less the
  overshoot. `Consume` states both halves.

## Model

| member | source | states |
|---|---|---|
| `CarcerBounds.WordReads` | src/locus_carcerum/locus_carcerum.c:82-110 | the two boundaries read back out of the word made of them, on any half width |
| `CarcerBounds.BumpMoves` | src/locus_carcerum/locus_carcerum.c:963-979 | one fetch-add on the boundary word moves the bump's own boundary by its need, the top around its half, and leaves the other half alone, while the end stays in its half |
| `CarcerBounds.FitsExactly` | src/locus_carcerum/locus_carcerum.c:973-981 | on a displaced word the room test passes a bump if and only if nothing was refused since the last settle and the true gap holds it |
| `CarcerBounds.BumpDisplaces` | src/locus_carcerum/locus_carcerum.c:963-983 | a bump on a displaced word is met in exactly that case, and refused displaces its own tier by exactly its need more |
| `CarcerPasses.StepKeeps` | src/locus_carcerum/locus_carcerum.c:829-999 | whatever step whichever context takes next, the words stay what the granted cells, the recorded overruns and the refusals not yet recorded make them, and memory holds of each cell the words its taker has stored |
| `CarcerPasses.RunKeeps` | src/locus_carcerum/locus_carcerum.c:829-999 | in every state of every interleaving of K contexts the end half is the persistent chain's end plus what was refused, the top half the temporary chain's start less what was refused around the half, the chains do not cross, and every word stored of every cell stands |
| `CarcerPasses.SettleStep` | src/locus_carcerum/locus_carcerum.c:612-624 | with every lane drained the settle stores each boundary exactly at its chain |
| `CarcerPasses.SettleBalances` | src/locus_carcerum/locus_carcerum.c:612-624 | subtracting the overruns in each half undoes the displacement even where the top has wrapped |
| `CarcerPasses.CloseStep` | src/locus_carcerum/locus_carcerum.c:635-648 | a fetch-or on the closed bit makes its context the writer where the bit was clear and changes nothing where it was taken |
| `CarcerPasses.DrainStep` | src/locus_carcerum/locus_carcerum.c:649-651 | a drain that waits for the lanes claimed by then waits for every permitted pass |
| `CarcerPasses.DrainedNone` | src/locus_carcerum/locus_carcerum.c:829-852 | once those lanes are let go no pass is permitted and no refusal is unrecorded |
| `CarcerPasses.BumpStep` | src/locus_carcerum/locus_carcerum.c:950-984 | a bump, granted or refused, keeps the invariant, its own displacement counted at once to the context that made it |
| `CarcerGrants.StandsStored` | src/locus_carcerum/locus_carcerum.c:904-910 | a cell's owner word and then its header stored carry that cell further on and change no other cell's words |
| `CarcerGrants.StandsPayload` | src/locus_carcerum/locus_carcerum.c:904-916 | what a holder stores in its payload changes no cell's words |
| `CarcerGrants.PayloadIs` | src/locus_carcerum/locus_carcerum.c:904-916 | what a holder may store in is exactly the words between the two of a busy cell with both stored |
| `CarcerPasses.LaidWords` | src/locus_carcerum/locus_carcerum.c:904-916 | a taker's own two stores, whatever passes between them, land in its own cell and move no boundary |
| `CarcerPasses.HoldStep` | src/locus_carcerum/locus_carcerum.c:904-916 | a holder's store at any time keeps the whole invariant |
| `CarcerGrants.WholeLays` | src/locus_carcerum/locus_carcerum.c:904-916 | cells whose two words are both stored tile exactly the grains they were granted |
| `CarcerPasses.DrainedTiled` | src/locus_carcerum/locus_carcerum.c:635-652 | with no pass permitted every cell's words are stored, and memory is tiled by both chains |
| `CarcerPasses.OwedRefuses` | src/locus_carcerum/locus_carcerum.c:973-981 | the room test passes only where nothing is owed on either tier and the true gap holds the need |
| `CarcerPasses.WritersExclude` | src/locus_carcerum/locus_carcerum.c:635-662 | in every run at most one context writes, no permitted pass overlaps a drained writer's section, and no context drains or waits for the bit while it holds a lane |
| `CarcerPasses.DrainedDisplaced` | src/locus_carcerum/locus_carcerum.c:612-652 | a writer whose drain is over finds each boundary displaced by exactly its overrun word in its own half, and memory tiled by both chains as they were granted |
| `CarcerBridge.HandsOver` | src/locus_carcerum/locus_carcerum.c:612-652 | in every run, a block over a drained writer's words is one every writer's method may start on |
| `CarcerBridge.HandsBack` | src/locus_carcerum/locus_carcerum.c:1294-1303 | a block at rest is one the protocol's writer may leave, and the protocol goes on from its words, its memory and its cells |
| `CarcerPasses.AloneRests` | src/locus_carcerum/locus_carcerum.c:612-652 | after the settle both boundaries stand at their chains with both overruns zero and memory tiled by both, whatever passes did before |
| `CarcerPasses.GrantApart` | src/locus_carcerum/locus_carcerum.c:950-984 | a granted cell is the gap's own grains next to its tier's chain, and meets no cell granted before it |
| `CarcerPasses.RefusedUntilSettled` | src/locus_carcerum/locus_carcerum.c:950-984 | after a refused bump no bump of either tier by any context is granted until a writer settles |
| `CarcerPasses.UnpermittedMovesNothing` | src/locus_carcerum/locus_carcerum.c:829-852 | a pass with no lane, or with the bit closed, moves neither boundary, records nothing and stores no cell's word, whichever step it takes |
| `CarcerPasses.DrainEnds` | src/locus_carcerum/locus_carcerum.c:829-852 | a context a drain waits for can always take its next step, each brings it nearer its leave, and the leave takes it off the drain |
| `CarcerProgress.ContextGoes` | src/locus_carcerum/locus_carcerum.c:612-662 | in every run a context that has begun a pass or a writer's turn, and waits on no other, can take its next step, which brings it nearer its end and puts no other off |
| `CarcerProgress.SomeoneGoes` | src/locus_carcerum/locus_carcerum.c:612-662 | whenever any context has begun something, one that has waits on none: the protocol is never stuck |
| `CarcerProgress.Begins` | src/locus_carcerum/locus_carcerum.c:829-852 | an idle context can begin a pass with whatever it asks for, a wait for the closed bit, or a trim, which takes the bit exactly where it is clear |
| `CarcerProgress.HoldStands` | src/locus_carcerum/locus_carcerum.c:904-916 | a holder's store stands in memory and changes nothing else |
| `CarcerTakes.PassTold` | src/locus_carcerum/locus_carcerum.c:829-999 | in every run every pass stands where its own enter, closed-bit read, word read ahead, bump and owner store put it: its tier, its place and its permit are those, and what it was granted or refused at its bump it still has |
| `CarcerTakes.OwingTold` | src/locus_carcerum/locus_carcerum.c:963-983 | something is owed if and only if a bump was refused and no writer has settled since |
| `CarcerTakes.TakeGranted` | src/locus_carcerum/locus_carcerum.c:950-984 | a bump is granted if and only if its pass entered with a lane and read the closed bit clear, its want and the end read ahead were in bounds, no bump was refused since the last settle, and the gap holds a cell of the want it entered with; granted, the tier it entered for gains exactly that cell, and refused neither changes |
| `CarcerTakes.TakeLaid` | src/locus_carcerum/locus_carcerum.c:904-916 | once laid, the cell a bump was granted has a header that reads the want its pass entered with and an owner word that names the place it entered with |
| `CarcerTakes.TakeLeaves` | src/locus_carcerum/locus_carcerum.c:829-852 | a context that leaves a pass holds no lane, and goes on to wait for the closed bit if and only if its pass was permitted and its bump refused |
| `CarcerCells.OwnerWordReads` | src/locus_carcerum/locus_carcerum.c:403-408 | the word a take writes names its owner and is not complete |
| `CarcerCells.CompletedReads` | src/locus_carcerum/locus_carcerum.c:579-583 | the fetch-or of the completion bit moves no other field and is done once |
| `CarcerCells.ClaimsCountOnce` | src/locus_carcerum/locus_carcerum.c:579-590 | however many gives and rewinds reach one cell, exactly one counts it off, and none where its word names no owner |
| `CarcerCells.WantHolds` | src/locus_carcerum/locus_carcerum.c:176-190 | the payload for a request is the least positive number of grains that holds it |
| `CarcerCells.LaysUnique` | src/locus_carcerum/locus_carcerum.c:1011-1066 | memory determines the cells of a tier, so a walk by headers alone ends exactly on the tier's boundary |
| `CarcerCells.WalkedShape` | src/locus_carcerum/locus_carcerum.c:1011-1040 | the walk leaves no two free cells side by side and a busy cell last below its new end |
| `CarcerCells.WalkedSpan` | src/locus_carcerum/locus_carcerum.c:1011-1040 | the grains walked are the tier's grains and the trailing run returned to the gap |
| `CarcerCells.WalkedBusies` | src/locus_carcerum/locus_carcerum.c:1011-1040 | merging moves no busy cell and changes none of its words |
| `CarcerCells.WalkedCounts` | src/locus_carcerum/locus_carcerum.c:1011-1040 | merging changes no account: of the block or of any owner |
| `CarcerCells.SearchAfterStep` | src/locus_carcerum/locus_carcerum.c:1011-1040 | a run found stays the first that fits, and a run closed later is found only where none was |
| `CarcerCells.FoundFits` | src/locus_carcerum/locus_carcerum.c:1022-1028 | the run found holds the want and ends at or below the bound it was searched under |
| `CarcerCells.TakenSpans` | src/locus_carcerum/locus_carcerum.c:1078-1087 | a split loses no grain, gives at least what was asked and strands at most a cell's two words on the taker |
| `CarcerCells.DropFreeIsSuffix` | src/locus_carcerum/locus_carcerum.c:1051-1065 | what the top's walk returns is free, and what it leaves starts busy |
| `CarcerTiers.HeldIsOwned` | src/locus_carcerum/locus_carcerum.c:529-556 | every busy payload is counted to one listed owner and to no other |
| `CarcerTiers.LedgerBalances` | src/locus_carcerum/locus_carcerum.c:529-556 | the block's count, the payloads of its busy cells and the sum of its owners' counts are one amount, and the persistent count is the part below the end, but for what moves left uncounted |
| `CarcerTiers.LedgerFreed` | src/locus_carcerum/locus_carcerum.c:1356-1378 | a give's accounts balance if and only if it takes the size off the persistent count exactly when the cell lies in that tier |
| `CarcerTiers.GivenWipes` | src/locus_carcerum/locus_carcerum.c:1356-1378 | the stores of a give leave the payload zero where asked and as it was where not, the header free, the owner word complete with its place, and every other word alone |
| `CarcerTiers.LedgerGrown` | src/locus_carcerum/locus_carcerum.c:1424-1465 | a growth keeps every account by counting its difference to the owner it had |
| `CarcerTiers.LedgerDropped` | src/locus_carcerum/locus_carcerum.c:1494-1513 | a cell a rewind drops is counted off if and only if its word still names its owner, and every account holds |
| `CarcerTiers.TilingsGrown` | src/locus_carcerum/locus_carcerum.c:1424-1465 | a grown cell keeps both tiers tiled, its own tier longer by exactly what it grew |
| `CarcerTiers.GrownKeeps` | src/locus_carcerum/locus_carcerum.c:1424-1465 | a grown cell keeps its old payload at its lower end, in either tier, and what it adds is zero where asked |
| `CarcerTiers.AliveAppended` | src/locus_carcerum/locus_carcerum.c:904-916 | a cell laid in the gap is one cell more alive, and every other stands with its words |
| `CarcerTiers.AliveRunTaken` | src/locus_carcerum/locus_carcerum.c:1078-1122 | a cell laid in a run is one cell more alive, and every other stands with its words |
| `CarcerTiers.AliveReturned` | src/locus_carcerum/locus_carcerum.c:1011-1066 | the walks that merge and trim end no cell's life and change none |
| `CarcerTiers.AliveFreed` | src/locus_carcerum/locus_carcerum.c:1356-1378 | a give ends its own cell's life and no other's |
| `CarcerTiers.AliveRewound` | src/locus_carcerum/locus_carcerum.c:1494-1513 | a rewind ends the lives of the temporary cells below the mark and no other's |
| `CarcerTiers.AliveApart` | src/locus_carcerum/locus_carcerum.c:904-916 | no two live cells share a grain, and memory holds each one's words where it stands |
| `CarcerHeap.SeriesCellularum.constructor` | src/locus_carcerum/locus_carcerum.c:2257-2272 | a fresh block is tiled by nothing, its boundaries at its ends, and every account zero |
| `CarcerHeap.SeriesCellularum.Settle` | src/locus_carcerum/locus_carcerum.c:612-624 | from any displaced word the boundaries go back to their chains and both overruns to zero |
| `CarcerHeap.SeriesCellularum.Mark` | src/locus_carcerum/locus_carcerum.c:1477-1480 | a mark reads the temporary tier's start if and only if no temporary take stands refused |
| `CarcerHeap.SeriesCellularum.Swept` | src/locus_carcerum/locus_carcerum.c:1011-1040 | the loop over memory leaves the tier merged, answers its new end and the first run that holds the want at or below the bound, and writes nothing above the old end |
| `CarcerSweeps.PassKeeps` | src/locus_carcerum/locus_carcerum.c:1011-1040 | one step of the walk keeps memory tiled behind it and ahead of it and moves no live cell |
| `CarcerSweeps.StepKeeps` | src/locus_carcerum/locus_carcerum.c:1011-1040 | so does a give's store to any cell on either side of the walk, which changes no other live cell |
| `CarcerSweeps.RunKeeps` | src/locus_carcerum/locus_carcerum.c:1011-1040 | however gives land between the walk's steps, memory stays tiled and every cell no give stored to lives on unmoved and unchanged |
| `CarcerSweeps.NoneBorn` | src/locus_carcerum/locus_carcerum.c:1011-1040 | and nothing lives after that did not live before at the same place and size |
| `CarcerSweeps.WalkEnds` | src/locus_carcerum/locus_carcerum.c:1011-1040 | a walk at its end leaves the tier tiled by what it settled and every live cell in it |
| `CarcerSweeps.StoresGive` | src/locus_carcerum/locus_carcerum.c:1356-1378 | the stores that land one by one between the walk's steps are together the give the block's entry makes |
| `CarcerSweeps.StoresRun` | src/locus_carcerum/locus_carcerum.c:1356-1378 | each of them may land wherever the walk stands, on every payload word and on the cell's own two |
| `CarcerHeap.SeriesCellularum.Moves` | src/locus_carcerum/locus_carcerum.c:950-990 | a take is granted exactly where it is permitted, within the most a bump may ask, nothing is refused since the last settle and the gap meets it; a refused one adds exactly what it asked to its own tier's overrun |
| `CarcerHeap.SeriesCellularum.LaidInGap` | src/locus_carcerum/locus_carcerum.c:904-916 | the cell's words laid at the tier's boundary extend its chain by that cell and every account by its payload |
| `CarcerHeap.SeriesCellularum.Bumped` | src/locus_carcerum/locus_carcerum.c:950-984 | the whole take out of the gap, from any displacement: one cell more in its tier and two words of memory, or nothing but its own tier's overrun |
| `CarcerHeap.SeriesCellularum.TopWalked` | src/locus_carcerum/locus_carcerum.c:1051-1065 | the loop from the top ends at the lowest busy temporary cell |
| `CarcerHeap.SeriesCellularum.LaidInRun` | src/locus_carcerum/locus_carcerum.c:1078-1090 | a free cell becomes the taker's cell and its rest, the tier's grains unchanged |
| `CarcerHeap.SeriesCellularum.Cleared` | src/locus_carcerum/locus_carcerum.c:1102-1112 | settling and then walking the one tier asked about leaves both tilings and every account, and finds the run or the trimmed boundary |
| `CarcerHeap.SeriesCellularum.Spilled` | src/locus_carcerum/locus_carcerum.c:1102-1122 | the refused take goes to the first run of the merged tier that holds it, else to the gap the trim left, else nowhere |
| `CarcerHeap.SeriesCellularum.PlacedLives` | src/locus_carcerum/locus_carcerum.c:1102-1122 | it answers nothing exactly where no run holds it and the trimmed gap is short, and otherwise makes its own cell alive and disturbs no other |
| `CarcerHeap.SeriesCellularum.TrimmedHeld` | src/locus_carcerum/locus_carcerum.c:1294-1303 | the trim settles, merges or draws up the tier it is for, and leaves both boundaries at their chains |
| `CarcerHeap.SeriesCellularum.ZeroBuf` | src/locus_carcerum/locus_carcerum.c:1183-1216 | exactly the words named are zeroed |
| `CarcerHeap.SeriesCellularum.FootClaimed` | src/locus_carcerum/locus_carcerum.c:579-590 | a cell is counted off its owner, the block and the tier exactly where the completion bit was clear on a word naming an owner |
| `CarcerHeap.SeriesCellularum.Given` | src/locus_carcerum/locus_carcerum.c:1356-1378 | the cell goes back exactly where the owner named is the one it counts to, any other give changes nothing, its payload reads zero exactly where that was asked, and the accounts hold after it unless it freed a temporary cell below the end as the word reads it |
| `CarcerHeap.SeriesCellularum.Released` | src/locus_carcerum/locus_carcerum.c:1356-1395 | from any displacement, a give whose cell reads as standing at a boundary trims the tier it read unless another writer holds the bit; at rest that boundary is the tier's newest cell, and both tilings and every account hold |
| `CarcerHeap.SeriesCellularum.MovedDown` | src/locus_carcerum/locus_carcerum.c:1424-1465 | words carried to a lower offset arrive as they were under any overlap |
| `CarcerHeap.SeriesCellularum.GrownTo` | src/locus_carcerum/locus_carcerum.c:1440-1465 | the stores and the counts of a growth grow exactly that cell |
| `CarcerHeap.SeriesCellularum.Grown` | src/locus_carcerum/locus_carcerum.c:1424-1465 | only the newest cell of its tier grows and only where the gap holds the difference, a shorter request answers the same cell, and any other changes nothing |
| `CarcerHeap.SeriesCellularum.GrewTurns` | src/locus_carcerum/locus_carcerum.c:1424-1465 | a growth is one turn of the temporary tier where it lies there, and none where it does not |
| `CarcerHeap.SeriesCellularum.CountedOff` | src/locus_carcerum/locus_carcerum.c:1500-1509 | the rewind's loop drops exactly the cells that start below the mark, the one across it among them, and keeps every account at each |
| `CarcerHeap.SeriesCellularum.Rewound` | src/locus_carcerum/locus_carcerum.c:1494-1513 | any mark between the top and the size drops exactly the cells that start below it, each counted off once, and puts the top at it; the block is at rest after it if and only if the mark lay on an edge; any other mark changes nothing |
| `CarcerHeap.SeriesCellularum.RestsAt` | src/locus_carcerum/locus_carcerum.c:1494-1513 | with the top stored at a mark the block is at rest if and only if the mark was on an edge |
| `CarcerMarks.EdgeIs` | src/locus_carcerum/locus_carcerum.c:1500-1509 | a mark is on an edge if and only if the first cell that does not start below it starts at it |
| `CarcerMarks.TurnKeeps` | src/locus_carcerum/locus_carcerum.c:1477-1513 | one turn of the temporary tier keeps a mark on an edge if and only if it does not raise the top past it or grow the cell at it |
| `CarcerMarks.ThroughExactly` | src/locus_carcerum/locus_carcerum.c:1477-1513 | through any sequence of turns the mark is on an edge all along if and only if every turn spares it |
| `CarcerMarks.MarkStands` | src/locus_carcerum/locus_carcerum.c:1477-1513 | the same of a mark read at rest |
| `CarcerMarks.TurnsJoin` | src/locus_carcerum/locus_carcerum.c:1477-1513 | the turns of one entry after another are the turns of both, sparing a mark where each does |
| `CarcerRuns.StaleMark` | src/locus_carcerum/locus_carcerum.c:1477-1513 | a mark read, its cell given back, a larger one taken and held: the rewind leaves the top where no cells tile memory |
| `CarcerRuns.GrownMark` | src/locus_carcerum/locus_carcerum.c:1424-1513 | a mark read and the cell at it grown: the rewind leaves the block off rest |
| `CarcerRuns.MisreadTier` | src/locus_carcerum/locus_carcerum.c:1356-1378 | a refused take unsettled, and the give of a temporary cell below the displaced end: the accounts no longer hold |
| `CarcerHeap.SeriesCellularum.Stored` | src/locus_carcerum/locus_carcerum.c:904-916 | a holder's word changes its own cell's payload and no tiling, boundary or account |
| `CarcerHeap.SeriesCellularum.Take` | src/locus_carcerum/locus_carcerum.c:1147-1161 | from any displacement, a take by a listed owner is bumped or spilled and makes exactly its own cell alive or none, and what it does to the temporary tier is its turns; by an unlisted owner it changes nothing |
| `CarcerMoves.MergedTwice` | src/locus_carcerum/locus_carcerum.c:1011-1040 | the walk of a tier already walked changes nothing |
| `CarcerMoves.AllFreeMerged` | src/locus_carcerum/locus_carcerum.c:1286-1292 | a tier whose every cell went back is walked to nothing |
| `CarcerMoves.TilingsMoved` | src/locus_carcerum/locus_carcerum.c:1975-2005 | the stores of a move keep both tiers tiled, the end drawn down where the cell stood last |
| `CarcerMoves.BusiesMoved` | src/locus_carcerum/locus_carcerum.c:1975-2005 | a move carries one busy cell to a lower offset and disturbs no other |
| `CarcerMoves.LedgerMoved` | src/locus_carcerum/locus_carcerum.c:1975-2005 | every account holds through a move up to the grains the run strands, at most two, all of them the cell's own owner's |
| `CarcerMoves.MoveConserves` | src/locus_carcerum/locus_carcerum.c:1978-1994 | the accounts still equal the busy payloads if and only if the run is the cell's own size or splits |
| `CarcerMoves.MoveDrifts` | src/locus_carcerum/locus_carcerum.c:1978-1994 | a two-grain cell moved into a run of three leaves a grain counted to nobody |
| `CarcerMoves.MoveFollowed` | src/locus_carcerum/locus_carcerum.c:1957-2007 | the slot of the cell moved names it where it now stands with its owner and its payload, every other slot names the cell it named, and no two name one |
| `CarcerHeap.SeriesCellularum.MoveStored` | src/locus_carcerum/locus_carcerum.c:1980-2003 | the stores of a move lay the copy with its payload and its rest, and leave the old cell free, wiped where asked, and no other word changed |
| `CarcerHeap.SeriesCellularum.Relocated` | src/locus_carcerum/locus_carcerum.c:1975-2005 | the payload and the owner word arrive below, the tiling is the moved tier's, and what the run strands is all that goes uncounted |
| `CarcerMover.OffsetsAt` | src/locus_carcerum/locus_carcerum.c:1957-2007 | one slot lowered lowers the sum of the slots' offsets by as much |
| `CarcerMover.RefusedNext` | src/locus_carcerum/locus_carcerum.c:1957-1974 | passing over a cell at least as large as one refused above it rules out no run it could have used |
| `CarcerMover.CarcerMovable.SlotHighest` | src/locus_carcerum/locus_carcerum.c:1933-1955 | of the slots below an offset whose cells are smaller than the last refused, the highest is found, or there is none |
| `CarcerMover.CarcerMovable.Lowered` | src/locus_carcerum/locus_carcerum.c:1980-2003 | the cell and its slot go down together, and every slot still names its own cell |
| `CarcerMover.CarcerMovable.Tried` | src/locus_carcerum/locus_carcerum.c:1957-2005 | the cell tried goes into the first run below it that holds it with its slot behind it, or there is no such run |
| `CarcerMover.CarcerMovable.SearchEnds` | src/locus_carcerum/locus_carcerum.c:1957-1974 | a search that skipped every cell at least as large as one refused above it has ruled out every named cell |
| `CarcerMover.CarcerMovable.Move` | src/locus_carcerum/locus_carcerum.c:1957-2007 | the highest named cell that any run below it holds goes into the first such run, what it leaves behind zero in a table that wipes; every slot follows its own cell; an answer of moved strictly lowers the slots' offsets together, and an answer of not moved means no named cell has a run below it that holds it |
| `CarcerSlots.FreeBit` | src/locus_carcerum/locus_carcerum.c:1616-1631 | the isolated lowest bit of the complement is the lowest free bit, all below it taken |
| `CarcerSlots.FreeNames` | src/locus_carcerum/locus_carcerum.c:1616-1631 | a free bit of a claim word is the place of a slot that names no cell, and the lowest such in that word |
| `CarcerSlots.SlotTable.FreeFound` | src/locus_carcerum/locus_carcerum.c:1605-1624 | the search around the table answers the first word with a free bit from its start on, or there is none |
| `CarcerSlots.SlotTable.Claim` | src/locus_carcerum/locus_carcerum.c:1605-1635 | a slot is won exactly where one names no cell, it is the lowest free of the first word with one from where the search starts, the next search starts there, and bits and slots still match |
| `CarcerSlots.SlotTable.Give` | src/locus_carcerum/locus_carcerum.c:1701-1725 | the slot and its bit are cleared together, and the next search starts no later than its word |
| `CarcerClaims.StepKeeps` | src/locus_carcerum/locus_carcerum.c:1605-1725 | through every racing claim and release a bit is set while its slot names a cell or one context is between the two, never both and never two contexts |
| `CarcerClaims.ClaimsApart` | src/locus_carcerum/locus_carcerum.c:1625-1635 | of claims that read one bit clear, one wins it and names a slot nobody else is naming or leaving, and the others change nothing |
| `CarcerClaims.NamedStands` | src/locus_carcerum/locus_carcerum.c:1605-1725 | a slot named keeps its cell until its own release |
| `CarcerClaims.NameCarries` | src/locus_carcerum/locus_carcerum.c:1605-1635 | a claim that wins its bit leaves the slot it looked at naming the cell it came with, and no other slot changed |
| `CarcerClaims.ReleaseClears` | src/locus_carcerum/locus_carcerum.c:1701-1725 | a release leaves its own slot naming none and its own bit clear, and no other |
| `CarcerClaims.ClaimAlone` | src/locus_carcerum/locus_carcerum.c:1605-1635 | a claim of a free slot that no other context crosses goes through: the slot named, its bit set |
| `CarcerClaims.ReleaseAlone` | src/locus_carcerum/locus_carcerum.c:1701-1725 | so does a release |
| `BitCounts.ClzLead` | src/clz/clz.c:45-82 | five halvings and a test count every word's leading zeros, 63 for a word of none |
| `BitCounts.ClzTrail` | src/clz/clz.c:94-112 | isolating the lowest bit under a floor and subtracting counts the trailing zeros, 63 for a word of none |
| `BitCounts.RingTrail` | src/memoria_anularis/memoria_anularis.c:262-276 | the population fold counts the trailing zeros, 64 for a mask of none |
| `BitCounts.FoldedTrails` | src/memoria_anularis/memoria_anularis.c:262-276 | the fold of a single bit less one is the number of zeros below the bit |
| `BitCounts.CarcerLowest` | src/locus_carcerum/locus_carcerum.c:1577-1592 | six masks place the lowest bit of every word, 0 for a word of none |
| `BitCounts.TrailNames` | src/locus_carcerum/locus_carcerum.c:1577-1592 | the count names the bit the isolation leaves |
| `BitCounts.ShiftIsBit` | src/locus_carcerum/locus_carcerum.c:1717-1719 | the shift that makes a slot's bit makes the bit at that place, at every place of a word |
| `MemoriaOperor.Cpy` | src/memoria_operor/memoria_operor.c:78-133 | walking up by four words, words and bytes leaves the destination equal to the source as it was, for any overlap with the destination at or below the source |
| `MemoriaOperor.MoveUp` | src/memoria_operor/memoria_operor.c:159-209 | walking down by bytes, four words and words does the same for a destination at or above the source |
| `MemoriaOperor.FallsByFour` | src/memoria_operor/memoria_operor.c:184-203 | four words loaded before any is stored are carried as one block under any overlap |
| `MemoriaOperor.ShimMove` | include/mmgr_string_shim.h:86-99 | the walk picked by the two addresses is right for every two regions |
| `PraetDescriptor.UpSafe` | src/memoriam_praetereo/praet_descriptor.h:90-110 | an engine's upward walk by steps carries the whole span where the destination does not start inside the source |
| `PraetDescriptor.DownSafe` | src/memoriam_praetereo/praet_descriptor.h:90-110 | the walk downward carries the whole span where the source does not start inside the destination |
| `PraetDescriptor.UpSpoils` | src/memoriam_praetereo/praet_descriptor.h:90-110 | where it does, the walk overwrites a step before it reads it, and some memory comes out wrong |
| `PraetDescriptor.DownSpoils` | src/memoriam_praetereo/praet_descriptor.h:90-110 | where it does, the walk downward overwrites a step before it reads it, and some memory comes out wrong |
| `PraetDescriptor.DirectionExact` | src/memoriam_praetereo/praet_descriptor.h:107-110 | for spans of whole steps the direction settled is never the one walk that spoils some memory, and is neither exactly where both walks carry every memory |
| `AnularisMover.Rungs` | src/memoria_anularis/memoria_anularis.c:185-224 | the rungs under eight words and the narrowing tail carry exactly the bytes left |
| `AnularisMover.RingMove` | src/memoria_anularis/memoria_anularis.c:174-224 | the whole cascade writes exactly the run, at any word width and any count |
| `AnularisMover.WrapPutAt` | src/memoria_anularis/memoria_anularis.c:484-500 | a byte written stands at its offset around the ring, and every byte not written stands |
| `AnularisMover.WrapGetAt` | src/memoria_anularis/memoria_anularis.c:453-469 | a byte read is the byte at its offset around the ring |
| `AnularisMover.WrapRoundTrip` | src/memoria_anularis/memoria_anularis.c:453-500 | what is moved in around an offset is what is moved out around it |
| `AnularisMover.RunsPut` | src/memoria_anularis/memoria_anularis.c:425-434 | the run up to the end and the run from the first byte on are together the move around the ring |
| `AnularisMover.RunsGet` | src/memoria_anularis/memoria_anularis.c:425-434 | the same two runs the other way are the move out of the ring |
| `AnularisMover.RingMoveIn` | src/memoria_anularis/memoria_anularis.c:484-500 | the least of the request and the capacity is written around the ring, nothing else changes, and it takes at most two passes |
| `AnularisMover.RingMoveOut` | src/memoria_anularis/memoria_anularis.c:453-469 | the least of the request and the capacity is read around the ring into the front of the destination, in at most two passes |
| `AnularisStream.UsedIs` | src/memoria_anularis/memoria_anularis.c:512-515 | the wrapped difference of the cursors is the number of bytes waiting |
| `AnularisStream.StepKeeps` | src/memoria_anularis/memoria_anularis.c:565-646 | every load, partial copy or store of either side keeps what waits standing where the cursors say |
| `AnularisStream.RunKeeps` | src/memoria_anularis/memoria_anularis.c:565-646 | so does every interleaving of the two sides |
| `AnularisStream.ReadsWhatWasPut` | src/memoria_anularis/memoria_anularis.c:565-646 | in every run the bytes read are a prefix of the bytes accepted, in order, with at most the capacity less one waiting |
| `AnularisStream.NeverSharesAByte` | src/memoria_anularis/memoria_anularis.c:587-646 | a put under way and a read under way never touch one index of the buffer |
| `AnularisStream.PutRefused` | src/memoria_anularis/memoria_anularis.c:636-646 | a put is refused exactly where its whole span does not fit beside what waits, and then changes nothing |
| `AnularisStream.PutAccepts` | src/memoria_anularis/memoria_anularis.c:636-646 | a put not refused accepts the very bytes it was given, behind all accepted before it, whatever the consumer does meanwhile |
| `AnularisStream.ReadTakes` | src/memoria_anularis/memoria_anularis.c:587-595 | a read takes the least of what it asked for and what waits as it reads the head, the oldest of it, whatever the producer does meanwhile |
| `AnularisStream.PutAlone` | src/memoria_anularis/memoria_anularis.c:636-646 | from every reachable state a put of a span that fits can be carried through |
| `AnularisStream.ReadAlone` | src/memoria_anularis/memoria_anularis.c:587-595 | and so can a read of what waits |
| `AnularisRing.PutStands` | src/memoria_anularis/memoria_anularis.c:636-646 | a span moved in at the head by two runs stands behind what waited, as the stream's accounts have it |
| `AnularisRing.ReadStands` | src/memoria_anularis/memoria_anularis.c:587-595 | a span moved out at the tail by two runs is the oldest of what waits |
| `AnularisStream.CursorsMeet` | src/memoria_anularis/memoria_anularis.c:565-572 | the cursors are equal exactly where nothing waits |
| `AnularisRing.RingState.Put` | src/memoria_anularis/memoria_anularis.c:636-646 | the span is accepted whole behind what waited, or refused whole, by exactly the room |
| `AnularisRing.RingState.Read` | src/memoria_anularis/memoria_anularis.c:587-595 | as many bytes as wait, up to the request, come out first accepted first |
| `AnularisRing.RingState.ReadByte` | src/memoria_anularis/memoria_anularis.c:565-576 | one byte comes out exactly where one waits, and it is the oldest |
| `AnularisRing.RingState.Peek` | src/memoria_anularis/memoria_anularis.c:607-612 | the bytes so far past the tail are copied and the tail stands; where they wait they are the bytes accepted there |
| `AnularisRing.RingState.Consume` | src/memoria_anularis/memoria_anularis.c:622-626 | bytes that wait are dropped unread, and a count less than a lap past them makes the ring report its capacity less the overshoot |
| `AnularisRing.RingState.Laid` | src/memoria_anularis/memoria_anularis.c:918-968 | a fresh ring over a buffer, or its refusal: laid with no segment size it streams over the whole buffer and its segments fill it, given one it streams nothing |
| `AnularisRing.FreshTakes` | src/memoria_anularis/memoria_anularis.c:918-968 | a ring freshly laid takes any span under its buffer where it was given no segment size, and no byte where it was |
| `AnularisSegments.Pow2Divides` | src/memoria_anularis/memoria_anularis.c:918-968 | the smaller of two powers of two divides the greater, as a segment count does the reach of a counter that wraps with the word |
| `AnularisSegments.IsPow2Exactly` | src/memoria_anularis/memoria_anularis.c:918-968 | the sizes accepted as powers of two are exactly the powers of two |
| `AnularisSegments.Init` | src/memoria_anularis/memoria_anularis.c:918-968 | which sizes are refused, and the capacity, the segment count and the segment size of every ring laid, which fit the buffer |
| `AnularisSegments.SpansApart` | src/memoria_anularis/memoria_anularis.c:672-683 | two segments never share a byte and none passes the buffer |
| `AnularisSegments.IndexCarries` | src/memoria_anularis/memoria_anularis.c:672-683 | a counter that wrapped with the word still names the segment its total names |
| `AnularisSegments.StepKeeps` | src/memoria_anularis/memoria_anularis.c:656-757 | no load, test or bump of either side breaks the accounts of segments in flight |
| `AnularisSegments.RunKeeps` | src/memoria_anularis/memoria_anularis.c:656-757 | nor does any interleaving of the two sides from a fresh ring |
| `AnularisSegments.FillsNoneInFlight` | src/memoria_anularis/memoria_anularis.c:692-757 | in every run, wraps included, at most the segments there are are in flight, and the one being filled is none of them |
| `AnularisSegments.DrainsInOrder` | src/memoria_anularis/memoria_anularis.c:737-742 | a segment is there to drain exactly where one is in flight, and it is the oldest published |
| `AnularisSegments.NextAnswers` | src/memoria_anularis/memoria_anularis.c:692-698 | a segment is given to fill exactly where one is not in flight |
| `AnularisSegments.FillAlone` | src/memoria_anularis/memoria_anularis.c:692-757 | from every reachable state with a segment not in flight it can be taken, filled and published |
| `AnularisSegments.DrainAlone` | src/memoria_anularis/memoria_anularis.c:737-757 | and with one in flight the oldest can be drained and freed |
| `BitorumWriter.FirstByteCarries` | src/bitorum_introitus_exitus/bitorum_introitus_exitus.c:75-105 | the first byte with the residue under it and the value shifted past it are together the residue plus the value above it |
| `BitorumWriter.OrAdds` | src/bitorum_introitus_exitus/bitorum_introitus_exitus.c:75-120 | or-ing a chunk shifted past the residue is adding it |
| `BitorumWriter.StreamAdds` | src/bitorum_introitus_exitus/bitorum_introitus_exitus.c:53-125 | what a put stores and keeps adds the value above every bit before it |
| `BitorumWriter.ReadsBack` | src/bitorum_introitus_exitus/bitorum_introitus_exitus.c:53-125 | every field of every sequence of puts is read back out of the number the stream spells, at the bit it was put at: its value's low bits, as many as it asked for |
| `BitorumWriter.BitsReadBack` | src/bitorum_introitus_exitus/bitorum_introitus_exitus.c:53-125 | bit by bit: the j-th bit put of a field is the j-th bit of its value |
| `BitorumWriter.ValueBit` | src/bitorum_introitus_exitus/bitorum_introitus_exitus.c:75-112 | a bit of the number the bytes spell is that bit of its own byte, the lowest first |
| `BitorumWriter.SpelledUnder` | src/bitorum_introitus_exitus/bitorum_introitus_exitus.c:53-125 | the number spelled never needs more bits than were put |
| `BitorumWriter.Bitor.WholeStored` | src/bitorum_introitus_exitus/bitorum_introitus_exitus.c:75-112 | the loop that stores whole bytes keeps the stream's value and leaves the bits short of a byte |
| `BitorumWriter.Bitor.PutFits` | src/bitorum_introitus_exitus/bitorum_introitus_exitus.c:53-125 | a put that fits stores its whole bytes and keeps the rest, and the stream spells the value above every bit before it |
| `BitorumWriter.Bitor.Put` | src/bitorum_introitus_exitus/bitorum_introitus_exitus.c:53-125 | after any puts of 0 to 64 bits the bytes and the residue spell every masked value in order and their bits add up; a put past the capacity writes nothing and freezes the stream |
| `BitorumWriter.Bitor.BitStands` | src/bitorum_introitus_exitus/bitorum_introitus_exitus.c:53-125 | after any puts the j-th bit of the i-th value stands in the buffer at its own byte and bit, or among the bits carried |
| `BitorumWriter.Bitor.Align` | src/bitorum_introitus_exitus/bitorum_introitus_exitus.c:137-155 | an align adds zero bits alone, up to the byte, or overflows and writes nothing |
| `CellularumLanes.DiffersFolded` | src/verbum_scrutor/verbum_scrutor.c:208-217 | dropping the case bit where the left byte is a letter is comparing lower cases |
| `VerbumScrutor.HasZeroLanes` | src/verbum_scrutor/verbum_scrutor.c:165-168 | the 64-bit zero test marks exactly the lanes that hold zero |
| `VerbumScrutor.XorLanes` | src/verbum_scrutor/verbum_scrutor.c:189-217 | the 64-bit difference, folded or not, is nonzero in exactly the lanes that differ |
| `VerbumScrutor.FoldLanes` | src/verbum_scrutor/verbum_scrutor.c:570-573 | folding lowers the capitals of a word and leaves every other lane |
| `VerbumScrutor.UpperLanes` | src/verbum_scrutor/verbum_scrutor.c:260-263 | the capitals' block is marked lane by lane |
| `VerbumScrutor.LanesAre` | src/verbum_scrutor/verbum_scrutor.c:165-168 | the lanes these are stated over are the eight bytes of the word, lowest first |
| `CellularumCompare.StepWordIsBytes` | src/cellularum_laboro/cellularum_laboro.c:65-185 | a word's step answers what its bytes' steps answer one after another |
| `CellularumCompare.AgreeWord` | src/cellularum_laboro/cellularum_laboro.c:631-655 | a word's terminator and difference lanes settle the byte walk, or the word is walked past |
| `CellularumCompare.AgreeIs` | src/cellularum_laboro/cellularum_laboro.c:141-185 | two strings agree by: where they first end or differ the left one ends, and a tie counts or the right one ends with it; and where they do neither before the bound, a tie counts |
| `CellularumCompare.AgreeRun` | src/cellularum_laboro/cellularum_laboro.c:667-789 | a run of whole words settles the byte walk where a word does, the aligned loop's early answer with the rest |
| `CellularumCompare.Agree` | src/cellularum_laboro/cellularum_laboro.c:667-789 | the word walk answers by the first place the strings end or differ at, for every bound, tie, case and alignment, and at the bound by what a tie is worth |
| `CellularumCompare.DiffIsLeast` | src/cellularum_laboro/cellularum_laboro.c:521-621 | the byte definition of a difference is the least place the two differ at |
| `CellularumCompare.DiffWord` | src/cellularum_laboro/cellularum_laboro.c:504-621 | a word's first differing lane, masked to the bound, is where the byte definition goes |
| `CellularumCompare.Diff` | src/cellularum_laboro/cellularum_laboro.c:521-621 | the word walk with its masked short word finds the least place the two differ at, or the bound |
| `CellularumCompare.Len` | src/cellularum_laboro/cellularum_laboro.c:254-350 | bytes to a boundary, two words a turn, words and a masked short word find the first zero byte, or the bound |
| `CellularumCompare.HeadAligns` | src/cellularum_laboro/cellularum_laboro.c:254-350 | the bytes walked first are the fewest that reach a word boundary, or all there are |
| `CellularumFind.MatchedAt` | src/cellularum_laboro/cellularum_laboro.c:1124-1155 | a start matches exactly where every needle byte stands there |
| `CellularumFind.FindBytes` | src/cellularum_laboro/cellularum_laboro.c:1255-1268 | from a place every start below is ruled out, one start at a time finds the answer |
| `CellularumFind.SieveVerify` | src/cellularum_laboro/cellularum_laboro.c:1044-1072 | the first word and the walk over the rest accept exactly the starts the needle stands at |
| `CellularumFind.Sieved` | src/cellularum_laboro/cellularum_laboro.c:824-831 | the rows keep exactly the starts where each row's byte stands |
| `CellularumFind.SieveWord` | src/cellularum_laboro/cellularum_laboro.c:1082-1113 | one word's survivors give the least start before a terminator, or rule out every start in it |
| `CellularumFind.Verified` | src/cellularum_laboro/cellularum_laboro.c:1094-1107 | the survivors verified from the first give the least start the needle stands at in a word |
| `CellularumFind.FindSieve` | src/cellularum_laboro/cellularum_laboro.c:1191-1269 | the words whose starts are all safe and the starts left over find the answer between them, for any rows |
| `CellularumFind.WordInside` | src/cellularum_laboro/cellularum_laboro.c:1204-1236 | every word the sieve walks, and every verify in it, stays inside the haystack's bound |
| `CellularumFind.ReachIs` | src/cellularum_laboro/cellularum_laboro.c:1191-1204 | how far the search keeps from the end is exactly the farthest any row or verify reads |
| `CellularumFind.ChainWord` | src/cellularum_laboro/cellularum_laboro.c:943-1019 | the mask chain of a one or two byte needle gives one word's least start, with the next word loaded or derived |
| `CellularumFind.FindShort` | src/cellularum_laboro/cellularum_laboro.c:943-1019 | the chain finds the least start with no terminator before it |
| `CellularumFind.Find` | src/cellularum_laboro/cellularum_laboro.c:1174-1269 | sieve or chain, with any rows and so any costs, finds the least start with no terminator up to it at which the needle stands, exact or folded, or answers none where there is none |
| `CellularumFind.PickRows` | src/cellularum_laboro/cellularum_laboro.c:843-880 | each row is the first of the cheapest offsets not yet taken, under any cost table |
| `CellularumFind.CostFolds` | src/cellularum_laboro/cellularum_laboro.c:843-880 | a byte's cost with case folded is its lower case's |
| `CellularumFind.FindCore` | src/cellularum_laboro/cellularum_laboro.c:1174-1269 | the same of the entry itself, the needle measured where its length is not given |
| `PraetOrdo.StepKeeps` | src/memoriam_praetereo/praet_ordo.c:96-552 | every entry keeps a stalled channel busy, a detached one bare, a position within its length, and with the flag down a walk that would change nothing |
| `PraetOrdo.RunKeeps` | src/memoriam_praetereo/praet_ordo.c:96-552 | so does every run |
| `PraetOrdo.WalkTwice` | src/memoriam_praetereo/praet_ordo.c:501-545 | walking the channels twice is walking them once |
| `PraetOrdo.ShortCircuitSound` | src/memoriam_praetereo/praet_ordo.c:470-495 | in every state a run of whole polls reaches, where the poll skips its walk the walk would have changed no channel |
| `PraetOrdo.ChannelsKept` | src/memoriam_praetereo/praet_ordo.c:117-552 | in every reachable state stalled implies busy, detached means laid bare, and no position passes its length |
| `PraetOrdo.TransitionsFollow` | src/memoriam_praetereo/praet_ordo.c:117-552 | over every step but a reset only a completion or a resolved stall ends a transfer, only a poll finishes a detach and only with no transfer under it, region and pool stand until then, and a position never falls within its transfer |
| `PraetOrdo.StallsAtOnce` | src/memoriam_praetereo/praet_ordo.c:501-520 | in any reachable state a channel just submitted, and one just kicked, reads stalled at its own instant if and only if its window passes the counter's end |
| `PraetOrdo.StalledUnmoved` | src/memoriam_praetereo/praet_ordo.c:184-218 | a submit at 65000 with a window of 1000 on a 16-bit counter is polled stalled before any time has passed |
| `PraetOrdo.ExtentCovers` | src/memoriam_praetereo/praet_ordo.c:573-606 | the extent to scrub is exactly the lesser of the length and the position rounded up to whole words |
| `PraetOrdo.RoundedUpIs` | src/memoriam_praetereo/praet_ordo.c:573-606 | that rounding is the least count of whole words that covers the position, and is what the code adds |
| `PraetFields.PollTold` | src/memoriam_praetereo/praet_ordo.c:470-552 | every poll of every run takes progress first and then lays bare exactly the channels asked to detach with no transfer under them, ends a settle exactly at its deadline, and reads stalled exactly the transfers stalled before and not moved or past their own; every other field stands and the flag is down |
| `PraetFields.DetachFinishes` | src/memoriam_praetereo/praet_ordo.c:501-545 | a detach with no transfer under it is finished by the next poll, and the channel may be attached again |
| `PraetFields.AttachTold` | src/memoriam_praetereo/praet_ordo.c:117-164 | the fields an attach leaves, and that it is refused by any channel not detached |
| `PraetFields.DetachTold` | src/memoriam_praetereo/praet_ordo.c:166-181 | a detach of an attached channel is asked for and nothing else of it changes |
| `PraetFields.SubmitTold` | src/memoriam_praetereo/praet_ordo.c:188-218 | the fields a submit leaves: busy, no verdict, a window from now, its start so far into the region, nothing moved; and which channels refuse it |
| `PraetFields.KickTold` | src/memoriam_praetereo/praet_ordo.c:229-255 | a kick opens the window again, lifts a stall and moves the position on, up to the length and never back |
| `PraetFields.CompleteTold` | src/memoriam_praetereo/praet_ordo.c:257-288 | a completion leaves its channel done, in error exactly where it failed, at its length exactly where it did not, with no other verdict |
| `PraetFields.ResolveTold` | src/memoriam_praetereo/praet_ordo.c:349-389 | a stall resolved leaves its channel attached, scrubbed or else abandoned, and measured exactly where measuring is on and it stopped inside a word |
| `PraetFields.ClockTold` | src/memoriam_praetereo/praet_ordo.c:392-406 | time and the interrupt move no channel and raise the flag, and a reset lays every channel bare |
| `PraetFields.TransferTold` | src/memoriam_praetereo/praet_ordo.c:117-552 | a transfer under way starts at the region its channel was attached over plus its submit's offset and has its submit's length, whatever came between |
| `PraetOrdo.Schedule.Adnectere` | src/memoriam_praetereo/praet_ordo.c:117-164 | an attach takes a detached channel alone, keeps the later settle deadline, and states the region, the pool and the settle with the flag raised |
| `PraetOrdo.Schedule.Separare` | src/memoriam_praetereo/praet_ordo.c:166-181 | a detach of an attached channel is asked for and not made, with the flag raised |
| `PraetOrdo.Schedule.Relatio` | src/memoriam_praetereo/praet_ordo.c:188-218 | a submit is refused unless the channel is attached or done, settled and not leaving |
| `PraetOrdo.Schedule.Efficere` | src/memoriam_praetereo/praet_ordo.c:229-255 | a kick pushes the window out, lifts a stall and never moves a position back |
| `PraetOrdo.Schedule.Completed` | src/memoriam_praetereo/praet_ordo.c:257-288 | a completion ends a busy transfer and no other, at its length unless it failed |
| `PraetOrdo.Schedule.Resolves` | src/memoriam_praetereo/praet_ordo.c:349-389 | only a stalled transfer is backed out, and it is marked scrubbed or abandoned |
| `PraetOrdo.Schedule.ResetAll` | src/memoriam_praetereo/praet_ordo.c:96-115 | a reset detaches every channel and puts down both flags and both clocks |
| `PraetOrdo.Schedule.AdvanceBy` | src/memoriam_praetereo/praet_ordo.c:392-396 | it is a step of a run and keeps the run's invariant, moves no channel, and leaves a poll that walks whatever the port answers |
| `PraetOrdo.Schedule.Raise` | src/memoriam_praetereo/praet_ordo.c:403-406 | so is and does the interrupt's raise |
| `PraetOrdo.Schedule.TakeProgress` | src/memoriam_praetereo/praet_ordo.c:435-468 | the loop asks every busy channel once, and answers whether any moved |
| `PraetOrdo.Schedule.WalkOne` | src/memoriam_praetereo/praet_ordo.c:501-545 | one channel's turn ends its settle, reads its watchdog and finishes its detach only with no transfer under it |
| `PraetOrdo.Schedule.PollNow` | src/memoriam_praetereo/praet_ordo.c:470-552 | the poll with its lock, its short circuit and its loop in place makes the state change the runs are proved about, and none under the lock |
| `PraetPoll.StepKeeps` | src/memoriam_praetereo/praet_ordo.c:435-552 | every step of a poll, every raise and every nested poll between two of them keeps what a poll's progress promises |
| `PraetPoll.RunKeeps` | src/memoriam_praetereo/praet_ordo.c:435-552 | so does every run of entries, poll steps, raises and nested polls |
| `PraetPoll.NestedDeclines` | src/memoriam_praetereo/praet_ordo.c:474-481 | a poll nested in another changes nothing, wherever the outer one stands |
| `PraetPoll.NothingLost` | src/memoriam_praetereo/praet_ordo.c:470-552 | a poll ends with its channels as the poll in one step would leave them, whatever raises landed inside it, and a walk after it would change none |
| `PraetPoll.FinishedTold` | src/memoriam_praetereo/praet_ordo.c:470-552 | whatever raises and nested polls land inside it, a poll makes of each channel exactly what its fields at the lock, the clock and the port's answers tell |
| `PraetPoll.SkipsExactly` | src/memoriam_praetereo/praet_ordo.c:482-495 | a poll skips its walk if and only if the flag was down at the lock, no interrupt has raised it since, and no transfer is answered past its position |
| `PraetPoll.FlagDown` | src/memoriam_praetereo/praet_ordo.c:545-552 | a poll done leaves the flag down unless the interrupt raised it meanwhile |
| `PraetPoll.PollEnds` | src/memoriam_praetereo/praet_ordo.c:470-552 | a poll under way can always take its next step, each brings it nearer its end, and no raise or nested poll puts it off |
| `PraetPoll.ShortCircuitSound` | src/memoriam_praetereo/praet_ordo.c:470-495 | in every state between polls the flag down means a walk would change no channel, whatever landed inside the polls before |

## Left out

- Weak memory orders, sleeping, waking and backoff: a step of either machine is one atomic operation, and the steps are
  sequentially consistent. A drain is taken to wait for the lanes claimed before it.
- Gives between the steps of a pass, and a give half done when a writer's own work starts: `CarcerSweeps` has gives
  between the steps of the persistent walk, and the heap runs one entry at a time.
- `CarcerPasses.StepKeeps`: a writer's work alone is one step that leaves any tiled memory; what the work does is the
  heap's methods, joined by `CarcerBridge`.
- `CarcerHeap.SeriesCellularum.Take`: memory is counted in grains of the build's alignment, so a word is one grain and
  an offset inside a grain is not modelled; masks and stores to the sink become conditionals; sums of a request with a
  cell's two words do not wrap; what is refused before it leaves the headroom the build's sizes give every context.
- `CarcerCells.OwnerWordReads`: the signal bits are written as none, and the stamp is any number.
- `CarcerHeap.SeriesCellularum.Given`: an address of no cell is no caller's; the stop on a foreign prisoner and the
  report of a misnamed owner are not modelled.
- High-water marks, touches, the fragmentation figure and the movable reads, writes, compares, measures and their
  scheduling: no hard property.
- `CarcerMover.CarcerMovable.Move`: the closed bit and the drain around a move are the protocol's; the class starts
  from a drained block.
- `AnularisStream.RunKeeps`: a copy is any number of runs of bytes; the bytes are values, not addresses.
- `AnularisMover.RingMoveIn`: the ring's mask is a remainder by the capacity.
- The ring's loculi, its holds and drops.
- The vector arms, the builtin arms of the bit counts, big-endian arms and alignment beyond which loop runs.
- `BitCounts.ClzLead`: words are 64 bits.
- `VerbumScrutor.XorLanes`: the lane arithmetic is shown at eight bytes a word; masks that order lanes (first, before,
  below, without the first) stand as contracts of `CellularumLanes`, on words of 2, 4 or 8 bytes.
- Character search, bounded copy and number parsing of strings; the memory compare, byte search and fill: the same
  walks again.
- `PraetOrdo.TransitionsFollow`: a build with recovery on.
- `PraetPoll.RunKeeps`: inside a poll only the interrupt's raise and a nested poll run, which is all an interrupt is for;
  an entry that moved the clock there would have its raise put down with the flag.
- `PraetOrdo.Schedule.Resolves`: the boundary word's checksum is a parameter.
- The older twins of the ring and of the external memory, the cost tables and the thin wrappers: they would repeat the
  same proofs or add single expressions.
