# Verified models of the DPDK test applications and the pixelflut filter

The repository is the author's XDP pixelflut filter together with the DPDK 19.05 test
applications it ships. This project models the parts of it that are state machines
or arithmetic, and proves their properties for all inputs, schedules and interleavings.

`dafny verify dfyconfig.toml` checks everything.

| file | models |
|---|---|
| `Pipeline.dfy` | the RX, worker and TX cores of test-pipeline as one step relation: packet order, who owns each packet, bounded spinning, the exact sizes that can jam |
| `FlowParser.dfy` | the flow-rule parser of testpmd: a pushdown machine with two 16-slot stacks and a two-ended output buffer, over any token table |
| `FlowMeaning.dfy`, `FlowGrammar.dfy` | what a command line leaves in the buffer, and which command lines are complete |
| `FlowContext.dfy`, `FlowSample.dfy` | its context with the routines of the call column in place; a table of real rows with a reachable run |
| `BitField.dfy`, `Prefix.dfy` | its bit-deposit routine and its prefix-to-mask generator in both implementations and byte orders |
| `Mbuf.dfy`, `CompressVerify.dfy`, `PrepareBufs.dfy` | the compression test: cutting the input into chains, the burst loop over a device that takes and returns what it likes, the compress/decompress verdict, the level loop |
| `Throughput.dfy`, `CycleCount.dfy` | the burst loops of the crypto test |
| `PktCopy.dfy`, `Dissect.dfy` | the segmented packet copy and the tunnel dissector of testpmd's checksum engine |
| `AclPrefix.dfy` | reading IPv6 prefixes and splitting them into 32-bit fields in test-acl |
| `Framebuffer.dfy` | the pixelflut filter as a fold over frames |
| `Numbers.dfy`, `Wrappers.dfy`, `Device.dfy` | arithmetic, results and device schedules the others share |

Each stateful routine is a class or array method that follows the C code and is proved to have
the effect of a function on values; the lemmas are about those functions.

Assumptions on what lies outside the source: a ring's bulk operations are all or nothing on a
FIFO with one slot less than its size; a pool hands out distinct objects; a device takes a prefix
of a burst and returns the oldest operations it holds. What a device or NIC does at each visit,
what it delivers, the choice made by `random()`, and the memory behind a packet are parameters,
so every result is for all of them. The device of the compression test applies a fixed function
to each buffer.

Where the code and its surroundings disagree, the code is followed:

- `parse_prefix` keeps `u / 8` in 32 bits, so a length of 2^35 is accepted as length 0
  (`Prefix.OverlongLengthSlipsThrough`); below 2^35 lengths are honoured and checked exactly
  (`Prefix.LengthHonouredIff`).
- `parse_hex` never compares the number of bytes with the key field, and its `memset` of the rest
  wraps in 32 bits: an RSS key of 130 to 256 digits is accepted and written past the action's
  configuration (`FlowSample.OversizedKey`; `FlowParser.WritesStayInObject` gives the exact
  condition).
- A VXLAN packet is taken for VXLAN-GPE when the VXLAN-GPE port is configured as 4789
  (`Dissect.StandardVxlanTakenForGpe`; `Dissect.DissectsTunnel` gives the exact condition).
- The guide asks for at least one item and one action; the parser also accepts `pattern end` and
  `actions end` (`FlowGrammar.CompleteIffCommand` has the grammar of the code).
- The compression test keeps the number of bytes left in 32 bits, so the chains hold the input
  only below 2^32 bytes (`PrepareBufs.Prepare`).
- test-pipeline's port check accepts one port, whose partner `i ^ 1` does not exist
  (`Pipeline.PartnerExistsIffEven`).
- The tailroom check of `pkt_copy_split` breaks out of the loop with `i == 0` when the first
  segment's buffer is the one that is too small, so the copy starts all the same
  (`PktCopy.CopyStartsIff`, `PktCopy.FirstSegmentUnchecked`); it stays inside its buffers if and
  only if the first piece fits (`PktCopy.CopyStaysInsideIff`).
- A destination segment never spans two source segments, so packets in several segments may not
  be copyable although the destination has room for their bytes (`PktCopy.CompletesIffCuttable`
  gives the exact condition, `PktCopy.TooManySegmentsIsNot` a family of failures).
- The comment at csumonly.c:677 lists IP in IP for both versions of both headers; the code looks
  for protocol 4 only, so protocol 41 is not a tunnel (`Dissect.Protocol41IsNoTunnel`).
- `GET_CB_FIELD` accepts a field without digits as zero (`AclPrefix.EmptyFieldIsZero`), so an address
  followed by a bare slash is a prefix of length 0 (`AclPrefix.NetReads`), and it accepts blanks and
  a sign before the digits (`AclPrefix.SignedField`).
- A failed build in the cycle-count test does not put back the whole bursts it had taken
  (`CycleCount.State.BuildOps`).

## Model

| member | source | states |
|---|---|---|
| Pipeline.OrderOverEveryRun | DPDK/dpdk-19.05/app/test-pipeline/runtime.c:46-155 | After every interleaving of the three cores, the packets received on port p are, in order, those TX handed out on port p^1 (sent or freed), its TX buffer, its TX ring, the worker's hand, the RX ring and RX's hand |
| Pipeline.StepKeepsOrder | DPDK/dpdk-19.05/app/test-pipeline/runtime.c:46-155 | One step of any core keeps that order on every port, from any state that has it |
| Pipeline.RxExtendsUpstream | DPDK/dpdk-19.05/app/test-pipeline/runtime.c:52-70 | An RX step only adds what the NIC delivered, at the end, to the RX side of one port |
| Pipeline.WorkerMoves | DPDK/dpdk-19.05/app/test-pipeline/runtime.c:86-105 | A worker step moves one burst at a time from a port's RX side to its partner's TX side and loses nothing |
| Pipeline.TxKeepsDownstream | DPDK/dpdk-19.05/app/test-pipeline/runtime.c:114-154 | A TX visit neither reorders nor loses what has left the worker, whatever part the NIC accepts |
| Pipeline.HandOutParts | DPDK/dpdk-19.05/app/test-pipeline/runtime.c:136-151 | Of a burst the NIC takes n packets of, the first n are sent and exactly the others are freed |
| Pipeline.StepAccounted | DPDK/dpdk-19.05/app/test-pipeline/runtime.c:114-154 | A step of any core keeps the account of sent and freed packets, and every burst offered is a full one that the mbuf array holds |
| Pipeline.FatesOverEveryRun | DPDK/dpdk-19.05/app/test-pipeline/runtime.c:114-154 | After every interleaving the packets counted as sent on a port are those the NIC took, in order, the packets freed are those it left of its bursts, and no burst offered was shorter than burst_size_tx_write or longer than the array |
| Pipeline.PortsInTurn | DPDK/dpdk-19.05/app/test-pipeline/runtime.c:52-154 | After every interleaving the k-th visit of each core, counted from 0, is of port k modulo the number of ports, so that no port is passed over |
| Pipeline.PortArithmetic | DPDK/dpdk-19.05/app/test-pipeline/runtime.c:52-52 | For the port counts the port check accepts and that are even, `(i + 1) & (n - 1)` and `i ^ 1` stay below n, and `i ^ 1` is its own inverse |
| Pipeline.PartnerExistsIffEven | DPDK/dpdk-19.05/app/test-pipeline/config.c:72-85 | Of the port counts the port check lets through, exactly two and four give every port a partner; it also lets a single port through, whose partner is port 1 |
| Pipeline.SpinningMeansFullBurst | DPDK/dpdk-19.05/app/test-pipeline/runtime.c:64-104 | Whenever RX or the worker spins on a full ring the ring holds a full burst for its consumer, exactly when the sizes match |
| Pipeline.StepKeepsBursts | DPDK/dpdk-19.05/app/test-pipeline/runtime.c:98-122 | Only whole bursts enter and leave a TX ring, so its level stays a multiple of their greatest common divisor |
| Pipeline.BlockedWorkerFeedsTx | DPDK/dpdk-19.05/app/test-pipeline/runtime.c:98-122 | In a fed state the TX ring the worker spins on holds a full burst for TX |
| Pipeline.WorkerStepHelps | DPDK/dpdk-19.05/app/test-pipeline/runtime.c:86-105 | While RX spins, a worker step that is not itself blocked lowers the progress rank |
| Pipeline.TxVisitHelpsWorker | DPDK/dpdk-19.05/app/test-pipeline/runtime.c:114-154 | While the worker spins, each TX visit either frees it or lowers the number of visits it still needs |
| Pipeline.RoundLowersRank | DPDK/dpdk-19.05/app/test-pipeline/runtime.c:64-104 | A stretch of any schedule in which the core that must move gets a turn lowers the rank |
| Pipeline.RxSpinIsBounded | DPDK/dpdk-19.05/app/test-pipeline/runtime.c:64-69 | From every fed state (sizes that match, or sizes that fit and TX rings in whole bursts) and for every schedule RX leaves its do-while loop within a stated number of fair rounds |
| Pipeline.WorkerSpinIsBounded | DPDK/dpdk-19.05/app/test-pipeline/runtime.c:98-104 | From every fed state the worker leaves its do-while loop within a stated number of TX visits |
| Pipeline.JamIsForEver | DPDK/dpdk-19.05/app/test-pipeline/runtime.c:64-95 | An RX burst that does not fit a ring too empty for the worker never gets in, whatever happens |
| Pipeline.OversizedBurstsJam | DPDK/dpdk-19.05/app/test-pipeline/runtime.c:52-95 | If the RX and worker bursts exceed the ring capacity by more than one, some run from the start leaves RX spinning for ever |
| Pipeline.NoStuckState | DPDK/dpdk-19.05/app/test-pipeline/runtime.c:64-104 | No fed state leaves RX spinning for ever |
| Pipeline.ClogIsForEver | DPDK/dpdk-19.05/app/test-pipeline/runtime.c:64-122 | A worker spinning on a TX ring too empty for TX never gets in, and RX behind it neither |
| Pipeline.Walk | DPDK/dpdk-19.05/app/test-pipeline/runtime.c:86-122 | Feeding while a burst fits and draining when it does not takes the level of a TX ring round a circle of workerWrite + txRead places, or the cores get stuck on the way |
| Pipeline.SmallTxRingJams | DPDK/dpdk-19.05/app/test-pipeline/runtime.c:52-122 | A TX ring smaller than the two bursts minus their greatest common divisor clogs on some run from the start |
| Pipeline.JamIffOversized | DPDK/dpdk-19.05/app/test-pipeline/runtime.c:52-104 | The exact condition, for all sizes with equal worker bursts: some run from the start leaves RX spinning for ever if and only if rxRead + workerRead > rxCap + 1 or workerWrite + txRead > txCap + gcd(workerWrite, txRead) |
| Pipeline.ShippedSizesAreTight | DPDK/dpdk-19.05/app/test-pipeline/init.c:52-67 | The shipped sizes cannot jam, one slot less in the RX ring or one packet more in the RX burst can, and the TX rings could shrink to one burst of 64 but not below |
| Pipeline.App.constructor | DPDK/dpdk-19.05/app/test-pipeline/init.c:46-68 | A fresh pipeline is empty and meets the invariant |
| Pipeline.App.EnqueueRx | DPDK/dpdk-19.05/app/test-pipeline/runtime.c:64-69 | The bulk enqueue is all or nothing |
| Pipeline.App.RxCore | DPDK/dpdk-19.05/app/test-pipeline/runtime.c:52-70 | The in-place RX step is the specified step and keeps the order invariant |
| Pipeline.App.WorkerCore | DPDK/dpdk-19.05/app/test-pipeline/runtime.c:86-105 | The in-place worker step is the specified step and keeps the order invariant |
| Pipeline.App.Transmit | DPDK/dpdk-19.05/app/test-pipeline/runtime.c:136-151 | The NIC takes a prefix of the burst, which counts as sent; exactly the rest is freed, in order |
| Pipeline.App.TxCore | DPDK/dpdk-19.05/app/test-pipeline/runtime.c:114-154 | The in-place TX visit is the specified step and keeps the order invariant |
| BitField.PutBitBit | DPDK/dpdk-19.05/app/test-pmd/cmdline_flow.c:2906-2907 | The inner assignments change exactly one bit, to the low bit of val |
| BitField.DepositFrame | DPDK/dpdk-19.05/app/test-pmd/cmdline_flow.c:2877-2913 | No bit outside the mask changes |
| BitField.DepositOtherBytes | DPDK/dpdk-19.05/app/test-pmd/cmdline_flow.c:2877-2913 | No byte without a masked bit changes |
| BitField.ExtractDeposit | DPDK/dpdk-19.05/app/test-pmd/cmdline_flow.c:2877-2913 | Reading the masked bits back in the same byte order gives val modulo 2^(mask bits), for every mask, size and byte order |
| BitField.ExtractPattern | DPDK/dpdk-19.05/app/test-pmd/cmdline_flow.c:2877-2913 | Two objects hold the same number under the mask exactly when they agree in every masked bit |
| BitField.PositionsDistinct | DPDK/dpdk-19.05/app/test-pmd/cmdline_flow.c:2896-2911 | No bit is visited twice |
| BitField.PositionsAscend | DPDK/dpdk-19.05/app/test-pmd/cmdline_flow.c:2888-2911 | The masked bits are walked from the last byte to the first in network order and from the first to the last otherwise, in a byte from bit 0 up |
| BitField.PositionsAreMaskBits | DPDK/dpdk-19.05/app/test-pmd/cmdline_flow.c:2896-2912 | The bits visited are exactly the set bits of the mask, and their number is what is returned |
| BitField.VisitsComplete | DPDK/dpdk-19.05/app/test-pmd/cmdline_flow.c:2896-2911 | Every set mask bit from a given point on is still visited |
| BitField.SkipRest | DPDK/dpdk-19.05/app/test-pmd/cmdline_flow.c:2900-2902 | Leaving the inner loop when the rest of the mask byte is zero skips nothing |
| BitField.TrackStep | DPDK/dpdk-19.05/app/test-pmd/cmdline_flow.c:2900-2909 | Each iteration stays on the way from the initial object to the deposited one |
| BitField.FillByte | DPDK/dpdk-19.05/app/test-pmd/cmdline_flow.c:2897-2909 | The inner loop handles one mask byte in place |
| BitField.BfFill | DPDK/dpdk-19.05/app/test-pmd/cmdline_flow.c:2877-2913 | The routine returns the number of mask bits and leaves the deposit of val in the object; without an object it only counts |
| Prefix.PrefixValueBit | DPDK/dpdk-19.05/app/test-pmd/cmdline_flow.c:2962-2965 | Bit j of the value built for u ones and n - u zeros is set exactly when j >= n - u |
| Prefix.DepositBit | DPDK/dpdk-19.05/app/test-pmd/cmdline_flow.c:2900-2909 | The j-th masked bit receives bit j of the value |
| Prefix.BitmaskPathIsPrefix | DPDK/dpdk-19.05/app/test-pmd/cmdline_flow.c:2954-2970 | The bit-mask path sets exactly the u most significant masked bits |
| Prefix.MinusOneFillsMask | DPDK/dpdk-19.05/app/test-pmd/cmdline_flow.c:2966-2968 | Depositing -1 sets every masked bit, for up to 64 of them |
| Prefix.PrefixByteBit | DPDK/dpdk-19.05/app/test-pmd/cmdline_flow.c:2971-2992 | The memset path sets bit k of the byte of significance j exactly when 8j + k >= 8 size - length |
| Prefix.MemsetAgreesWithBitmask | DPDK/dpdk-19.05/app/test-pmd/cmdline_flow.c:2954-2992 | The memset path writes, byte for byte and in either byte order, what the bit-mask path writes for an all-ones mask |
| Prefix.PrefixAsInteger | DPDK/dpdk-19.05/app/test-pmd/cmdline_flow.c:2978-2992 | Read in its own byte order the field holds (2^u - 1) * 2^(8 size - u) |
| Prefix.WholeIsInteger | DPDK/dpdk-19.05/app/test-pmd/cmdline_flow.c:2888-2911 | Through an all-ones mask the walk reads a network-order field as the big-endian number of its bytes and any other as the little-endian one |
| Prefix.DepositIsStore | DPDK/dpdk-19.05/app/test-pmd/cmdline_flow.c:2877-2913 | A number deposited through an all-ones mask is stored big-endian in network order and little-endian otherwise, modulo 2^(8 size) |
| Prefix.PrefixByteOrder | DPDK/dpdk-19.05/app/test-pmd/cmdline_flow.c:2978-2992 | The bytes after the memset calls are the big-endian form of (2^u - 1) * 2^(8 size - u) in network order and its little-endian form otherwise |
| Prefix.AcceptedLengths | DPDK/dpdk-19.05/app/test-pmd/cmdline_flow.c:2971-2975 | The range check accepts exactly the lengths whose effective value fits the field |
| Prefix.AcceptsWhatFits | DPDK/dpdk-19.05/app/test-pmd/cmdline_flow.c:2954-2975 | Below 2^35 a length is accepted if and only if the field has that many bits, set in the mask or in all; an empty mask cannot be written through |
| Prefix.LengthHonouredIff | DPDK/dpdk-19.05/app/test-pmd/cmdline_flow.c:2971-2974 | A length is honoured as given if and only if it is below 2^35 |
| Prefix.OverlongLengthSlipsThrough | DPDK/dpdk-19.05/app/test-pmd/cmdline_flow.c:2971-2975 | 2^35 is accepted for every field and taken as length 0; below 2^35 the check accepts exactly what fits |
| Prefix.Memset | DPDK/dpdk-19.05/app/test-pmd/cmdline_flow.c:2981-2989 | A memset call in place: its range and nothing else |
| Prefix.OnesThenZeros | DPDK/dpdk-19.05/app/test-pmd/cmdline_flow.c:2962-2965 | The loop and shift build 2^spare * (2^u - 1) without overflow below 64 bits |
| Prefix.PrefixThroughMask | DPDK/dpdk-19.05/app/test-pmd/cmdline_flow.c:2961-2969 | The bit-mask path in place; every masked bit of objmask is then set and no other changed |
| Prefix.PrefixUpwards | DPDK/dpdk-19.05/app/test-pmd/cmdline_flow.c:2980-2984 | The host-order memset path writes the prefix bytes and nothing else, and the field is then the little-endian form of the prefix |
| Prefix.PrefixDownwards | DPDK/dpdk-19.05/app/test-pmd/cmdline_flow.c:2987-2991 | The network-order memset path writes the prefix bytes and nothing else, and the field is then the big-endian form of the prefix |
| Prefix.PrefixThroughMemset | DPDK/dpdk-19.05/app/test-pmd/cmdline_flow.c:2978-2994 | The memset path in place, with a mask of all ones in objmask |
| Prefix.ParsePrefix | DPDK/dpdk-19.05/app/test-pmd/cmdline_flow.c:2935-2998 | Success exactly when the length is acceptable; the objects then hold prefix and full mask, with every masked bit of objmask set, and are untouched otherwise |
| FlowParser.StacksOverEveryRun | DPDK/dpdk-19.05/app/test-pmd/cmdline_flow.c:4951-5025 | In every state reached by accepted words the argument stack holds exactly what the pending lists will pop, and neither stack exceeds three entries |
| FlowParser.MatchedDemand | DPDK/dpdk-19.05/app/test-pmd/cmdline_flow.c:2859-2874 | When the two stacks match, the argument stack height is the sum of what the pending values pop: three for strings and hex keys, one otherwise |
| FlowParser.StepKeepsStacks | DPDK/dpdk-19.05/app/test-pmd/cmdline_flow.c:4951-5025 | No accepted word breaks the match of the two stacks or the bound of three |
| FlowParser.RowsMatch | DPDK/dpdk-19.05/app/test-pmd/cmdline_flow.c:1157-2857 | Every row of the token table pushes lists and descriptors that match |
| FlowParser.PrefixKeepsStacks | DPDK/dpdk-19.05/app/test-pmd/cmdline_flow.c:3178-3183 | Overwriting the pending value list on `prefix` keeps the stacks matched |
| FlowParser.LeafWordKeepsStacks | DPDK/dpdk-19.05/app/test-pmd/cmdline_flow.c:3330-3419 | Values, item parameters and the RSS words that push themselves again keep the stacks matched |
| FlowParser.ValuesFindTheirDescriptors | DPDK/dpdk-19.05/app/test-pmd/cmdline_flow.c:4339-4602 | Whenever a value is expected its parser finds descriptors of a shape it supports; it is accepted if and only if its text converts, a number fits its field, a string is no longer than its field, and hex has 1 to 256 digits and a byte count that fits the length field |
| FlowParser.CompleteLeavesNothing | DPDK/dpdk-19.05/app/test-pmd/cmdline_flow.c:5127-5155 | When no further word is asked for, every pushed descriptor has been used |
| FlowParser.StepKeepsInv | DPDK/dpdk-19.05/app/test-pmd/cmdline_flow.c:4951-5025 | An accepted word keeps the whole invariant: stacks, buffer layout, object pointers |
| FlowParser.ReachableInv | DPDK/dpdk-19.05/app/test-pmd/cmdline_flow.c:4951-5025 | Every reachable state meets the invariant |
| FlowParser.HomeWordPlaced | DPDK/dpdk-19.05/app/test-pmd/cmdline_flow.c:3042-3145 | Every attribute, item, action, identifier and command word leaves the buffer as the lists it pushes expect it |
| FlowParser.LeafWordPlaced | DPDK/dpdk-19.05/app/test-pmd/cmdline_flow.c:3149-3208 | Every parameter, value and RSS word leaves the buffer as the remaining lists expect it |
| FlowParser.BlocksDescend | DPDK/dpdk-19.05/app/test-pmd/cmdline_flow.c:3099-3142 | Each data block lies wholly below all earlier ones |
| FlowParser.LayoutOverEveryRun | DPDK/dpdk-19.05/app/test-pmd/cmdline_flow.c:3042-3145 | In every reachable state of a rule the header, item array, action array and data blocks are in bounds, 8-byte aligned and pairwise disjoint |
| FlowParser.DescriptorsSelectInside | DPDK/dpdk-19.05/app/test-pmd/cmdline_flow.c:3190-3207 | Each descriptor of a pending value selects bytes inside the current object (for items: the chosen third of the latest block), and a full mask goes to a disjoint third |
| FlowParser.WritesStayInObject | DPDK/dpdk-19.05/app/test-pmd/cmdline_flow.c:4339-4602 | All bytes an accepted value writes (field, length and address, the padding by memset included) lie inside the current object, and those of the mask in a third the former do not touch, if and only if a hex value has no more bytes than its key descriptor; for every other kind always |
| FlowParser.QueueWritesStayInObject | DPDK/dpdk-19.05/app/test-pmd/cmdline_flow.c:3374-3419 | RSS queue indices stay inside the action's configuration, however many are given |
| FlowMeaning.CallEffect | DPDK/dpdk-19.05/app/test-pmd/cmdline_flow.c:3042-3208 | What one accepted word changes in the buffer: one attribute, one entry with its data block, one pointer of the latest item, one identifier, or nothing |
| FlowMeaning.RecordedOverEveryRun | DPDK/dpdk-19.05/app/test-pmd/cmdline_flow.c:3042-3145 | After any accepted words the buffer names the command, has exactly the attributes given, and lists the items and actions named, in order and each once |
| FlowMeaning.PointersOverEveryRun | DPDK/dpdk-19.05/app/test-pmd/cmdline_flow.c:3099-3208 | At every moment each item and action has a data block of its own and of its own size; spec, last and mask of an item, where set, point to the first, second and third part of it, and conf of an action to its start, or is NULL when there is no configuration |
| FlowMeaning.ArraysTerminated | DPDK/dpdk-19.05/app/test-pmd/cmdline_flow.c:1157-2857 | In every complete validate or create command both arrays end with END and have it nowhere else |
| FlowMeaning.ParamSelectsThird | DPDK/dpdk-19.05/app/test-pmd/cmdline_flow.c:3157-3207 | With b the latest data block and n the size of the item, `spec` and `is` put the object at b, `last` at b + n, `mask` and `prefix` at b + 2n, and `is` fills the bytes at b + 2n as mask |
| FlowMeaning.QueuesInOrder | DPDK/dpdk-19.05/app/test-pmd/cmdline_flow.c:3374-3419 | After `queues` n indices are accepted if and only if n <= 32, and the counter that numbers the next slot is then n |
| FlowMeaning.NumbersAreKeptWhole | DPDK/dpdk-19.05/app/test-pmd/cmdline_flow.c:4363-4414 | A number is accepted if and only if its field can hold all of it |
| FlowMeaning.StringsAcceptedIffInside | DPDK/dpdk-19.05/app/test-pmd/cmdline_flow.c:4422-4487 | A string is accepted if and only if copying it and clearing the rest of its field ends where the field does |
| FlowMeaning.FlowAcceptedIff | DPDK/dpdk-19.05/app/test-pmd/cmdline_flow.c:3017-3039 | `flow` is accepted if and only if the buffer can hold its header |
| FlowMeaning.CommandsAccepted | DPDK/dpdk-19.05/app/test-pmd/cmdline_flow.c:3056-3067 | After `flow` no command word is refused |
| FlowMeaning.EntryAcceptedIff | DPDK/dpdk-19.05/app/test-pmd/cmdline_flow.c:3099-3142 | An item or action where one is expected is refused if and only if no aligned place for its data leaves the array room for one more entry; otherwise it gets the highest such place |
| FlowMeaning.IdAcceptedIff | DPDK/dpdk-19.05/app/test-pmd/cmdline_flow.c:4166-4177 | An identifier where one is expected is refused if and only if its slot would end behind the buffer; otherwise it goes to the slot of its number |
| FlowGrammar.HomeRest | DPDK/dpdk-19.05/app/test-pmd/cmdline_flow.c:1157-2857 | A word and the rest of the line follow a list of the table if and only if the rest follows the lists the word makes pending |
| FlowGrammar.StepRest | DPDK/dpdk-19.05/app/test-pmd/cmdline_flow.c:4951-5025 | The same for every accepted word in every state of the parser |
| FlowGrammar.CompleteIffCommand | DPDK/dpdk-19.05/doc/guides/testpmd_app_ug/testpmd_funcs.rst:3473-3506 | Words accepted one after the other are a complete command if and only if they are one of the seven commands of the guide: flush, query, isolate, list, destroy, validate and create, with the attributes, items, parameters and actions the grammar gives |
| FlowSample.SampleTableOk | DPDK/dpdk-19.05/app/test-pmd/cmdline_flow.c:1157-2857 | The hypothesis on token tables is met by a table of real rows |
| FlowSample.KeyIsReached | DPDK/dpdk-19.05/app/test-pmd/cmdline_flow.c:2266-2325 | The words `flow create <port> pattern end actions rss key` lead a fresh context to the state that expects the key |
| FlowSample.OversizedKey | DPDK/dpdk-19.05/app/test-pmd/cmdline_flow.c:4559-4584 | There a key of n digits is accepted exactly for 1 <= n <= 256 and its writes stay in the action's configuration exactly for n <= 128; 130 digits are a concrete overrun |
| FlowContext.Context.constructor | DPDK/dpdk-19.05/app/test-pmd/cmdline_flow.c:4934-4948 | A fresh context meets the invariant |
| FlowContext.Context.PopArgs | DPDK/dpdk-19.05/app/test-pmd/cmdline_flow.c:2859-2864 | Popping takes the last descriptor, or fails on an empty stack |
| FlowContext.Context.PushArgs | DPDK/dpdk-19.05/app/test-pmd/cmdline_flow.c:2866-2874 | Pushing appends a descriptor, or fails on 16 |
| FlowContext.Context.PushNext | DPDK/dpdk-19.05/app/test-pmd/cmdline_flow.c:5011-5016 | Pushing appends a list, or fails on 16 |
| FlowContext.Context.PushRow | DPDK/dpdk-19.05/app/test-pmd/cmdline_flow.c:5011-5023 | The two loops push all of a row or fail |
| FlowContext.Context.TakeValue | DPDK/dpdk-19.05/app/test-pmd/cmdline_flow.c:4339-4602 | A value parser in place is the specified effect on the descriptor stack |
| FlowContext.Context.TakeOne | DPDK/dpdk-19.05/app/test-pmd/cmdline_flow.c:4339-4414 | One descriptor is taken; a number that does not convert or has no width puts it back, one too large for its field is refused |
| FlowContext.Context.TakeThree | DPDK/dpdk-19.05/app/test-pmd/cmdline_flow.c:4422-4602 | Three descriptors are taken in the order data, length, address; strings are compared with their field, hex with 256 digits only |
| FlowContext.Context.StoreLength | DPDK/dpdk-19.05/app/test-pmd/cmdline_flow.c:4562-4573 | The length goes through the integer parser with its descriptor back on the stack, which is as it was afterwards |
| FlowContext.Context.ParseInit | DPDK/dpdk-19.05/app/test-pmd/cmdline_flow.c:3017-3039 | The whole buffer is cleared and becomes the object |
| FlowContext.Context.BeginCommand | DPDK/dpdk-19.05/app/test-pmd/cmdline_flow.c:3056-3067 | The first word of a command names it and sets the identifier and data pointers of the buffer |
| FlowContext.Context.FindSlot | DPDK/dpdk-19.05/app/test-pmd/cmdline_flow.c:3099-3133 | The next entry of the item or action array, if it ends below the data |
| FlowContext.Context.GrowArrays | DPDK/dpdk-19.05/app/test-pmd/cmdline_flow.c:3112-3142 | One more entry of its kind, with NULL pointers or the address of its configuration, and its data block |
| FlowContext.Context.AllocateSlot | DPDK/dpdk-19.05/app/test-pmd/cmdline_flow.c:3099-3142 | A slot at the end of the item or action array and an aligned block below the data handed out so far, or nothing when the two would meet |
| FlowContext.Context.ParseRule | DPDK/dpdk-19.05/app/test-pmd/cmdline_flow.c:3042-3145 | Attributes, the starts of the two arrays, items and actions in place |
| FlowContext.Context.ParseSpec | DPDK/dpdk-19.05/app/test-pmd/cmdline_flow.c:3149-3208 | The chosen third of the latest block becomes the object and the item's pointer leads to it, for `is` with a mask in the last third; `prefix` overwrites the list of the pending value |
| FlowContext.Context.ParseIdSlot | DPDK/dpdk-19.05/app/test-pmd/cmdline_flow.c:4145-4178 | An identifier slot at the end of the array, or a refusal at the end of the buffer |
| FlowContext.Context.ParseConf | DPDK/dpdk-19.05/app/test-pmd/cmdline_flow.c:3212-3230 | The latest block becomes the object, without mask |
| FlowContext.Context.ParseRss | DPDK/dpdk-19.05/app/test-pmd/cmdline_flow.c:3233-3325 | The action is allocated and its configuration becomes the object |
| FlowContext.Context.ParseRssType | DPDK/dpdk-19.05/app/test-pmd/cmdline_flow.c:3330-3367 | A type name pushes the list of type names again, `end` does not |
| FlowContext.Context.ParseRssQueue | DPDK/dpdk-19.05/app/test-pmd/cmdline_flow.c:3374-3419 | A queue is stored in the slot of its number, whose descriptor is pushed and taken again, and the list is pushed again; it is refused when the slots are used up |
| FlowContext.Context.CallToken | DPDK/dpdk-19.05/app/test-pmd/cmdline_flow.c:4990-5006 | The call column in place dispatches to the methods above and below; it accepts exactly what the specified call accepts and leaves the context it says |
| FlowContext.Context.AdvanceStacks | DPDK/dpdk-19.05/app/test-pmd/cmdline_flow.c:5009-5024 | Dropping the list and pushing the row in place is the specified step |
| FlowContext.Context.OpenStacks | DPDK/dpdk-19.05/app/test-pmd/cmdline_flow.c:4984-4989 | A fresh context expects the first word |
| FlowContext.Context.Parse | DPDK/dpdk-19.05/app/test-pmd/cmdline_flow.c:4951-5025 | The parser in place accepts exactly what the machine accepts, moves to its state, and keeps the invariant |
| Mbuf.ReadBack | DPDK/dpdk-19.05/app/test-compress-perf/comp_perf_test_verify.c:133-140 | What the device stores from the start of a primed chain is read back as that chain's content once the lengths are set |
| Mbuf.Restore | DPDK/dpdk-19.05/app/test-compress-perf/comp_perf_test_verify.c:203-222 | Storing a packed chain's own bytes over it and setting the lengths restores every segment |
| CompressVerify.Pass.constructor | DPDK/dpdk-19.05/app/test-compress-perf/comp_perf_test_verify.c:85-97 | A fresh pass has every operation in the pool |
| CompressVerify.Pass.Compact | DPDK/dpdk-19.05/app/test-compress-perf/comp_perf_test_verify.c:103-112 | After the move, slot k of the array holds the operation of buffer enqueued + k |
| CompressVerify.Pass.Attach | DPDK/dpdk-19.05/app/test-compress-perf/comp_perf_test_verify.c:114-150 | Fresh operations continue the same numbering and prime their output chains; other chains are untouched |
| CompressVerify.Pass.Enqueue | DPDK/dpdk-19.05/app/test-compress-perf/comp_perf_test_verify.c:152-166 | Buffers are submitted in index order, each once |
| CompressVerify.Pass.Dequeue | DPDK/dpdk-19.05/app/test-compress-perf/comp_perf_test_verify.c:168-171 | The oldest operations come back, at most a burst |
| CompressVerify.Pass.CollectBytes | DPDK/dpdk-19.05/app/test-compress-perf/comp_perf_test_verify.c:173-200 | The output grows by the bytes of the operations that came back, in buffer order |
| CompressVerify.Pass.SetLengths | DPDK/dpdk-19.05/app/test-compress-perf/comp_perf_test_verify.c:203-222 | The chains that came back get the lengths of what was produced; no other chain changes |
| CompressVerify.Pass.TakeBack | DPDK/dpdk-19.05/app/test-compress-perf/comp_perf_test_verify.c:223-225 | Operations go back to the pool as they come back |
| CompressVerify.Pass.Round | DPDK/dpdk-19.05/app/test-compress-perf/comp_perf_test_verify.c:98-226 | No underflow of num_ops - ops_unused and no empty pool: one iteration keeps the invariant of counters, order and data for whatever the device does |
| CompressVerify.Pass.MainLoop | DPDK/dpdk-19.05/app/test-compress-perf/comp_perf_test_verify.c:98-301 | At the end nothing is unused or allocated, the pool is full, every buffer was submitted once and in order, and outputs and chains are those of the codec; it does end if the device keeps moving |
| CompressVerify.Resize | DPDK/dpdk-19.05/app/test-compress-perf/comp_perf_test_verify.c:212-220 | The loop over a chain sets full segments, then the rest |
| CompressVerify.DeliveredReads | DPDK/dpdk-19.05/app/test-compress-perf/comp_perf_test_verify.c:182-196 | Reading the produced bytes of a primed chain gives the device's output |
| CompressVerify.CompressedChain | DPDK/dpdk-19.05/app/test-compress-perf/comp_perf_test_verify.c:312-356 | After the first pass chain i holds exactly the compressed input i |
| CompressVerify.DecompressedChain | DPDK/dpdk-19.05/app/test-compress-perf/comp_perf_test_verify.c:312-356 | With a codec that gives a buffer back, the second pass puts back exactly the input chain the first one read |
| CompressVerify.OutputsRoundTrip | DPDK/dpdk-19.05/app/test-compress-perf/comp_perf_test_verify.c:312-356 | The bytes collected by the second pass are those the codec makes of each buffer and back, in order |
| CompressVerify.LosslessRoundTrip | DPDK/dpdk-19.05/app/test-compress-perf/comp_perf_test_verify.c:312-356 | With a codec that gives every buffer back they are the whole input |
| CompressVerify.RunPass | DPDK/dpdk-19.05/app/test-compress-perf/comp_perf_test_verify.c:13-307 | One call of main_loop, for every burst size and schedule |
| CompressVerify.Verify | DPDK/dpdk-19.05/app/test-compress-perf/comp_perf_test_verify.c:312-356 | For every codec whose output fits, every input, segmentation, burst size and schedule of either pass, the verdict is success if and only if the bytes that came back are the input; a codec that gives every buffer back succeeds and leaves the input chains as they were |
| PrepareBufs.DivCeilBound | DPDK/dpdk-19.05/app/test-compress-perf/main.c:17-17 | DIV_CEIL rounds up: k pieces do not cover a exactly when k is below it |
| PrepareBufs.PosStep | DPDK/dpdk-19.05/app/test-compress-perf/main.c:366-376 | A segment takes what is left of the input, at most its size, and only the last one ends it |
| PrepareBufs.CoversMore | DPDK/dpdk-19.05/app/test-compress-perf/main.c:382-412 | Appending one more segment extends the part of the input the chain holds |
| PrepareBufs.FillChain | DPDK/dpdk-19.05/app/test-compress-perf/main.c:358-412 | One input chain of one to maxSegs segments holding the next bytes of the input; it cannot fail while the pool holds what the input needs |
| PrepareBufs.OutChain | DPDK/dpdk-19.05/app/test-compress-perf/main.c:414-453 | One output chain with as many segments, all full, and their total as its packet length |
| PrepareBufs.Prepare | DPDK/dpdk-19.05/app/test-compress-perf/main.c:347-457 | The chains made hold the input, whatever becomes of the 32-bit counter of remaining bytes, if and only if the input is below 2^32 bytes; then there are exactly ceil(ceil(N/seg)/maxsegs) of them, each pool gives out exactly ceil(N/seg) segments, and output chains match input chains segment for segment |
| PrepareBufs.PreparedAgain | DPDK/dpdk-19.05/app/test-compress-perf/main.c:545-575 | What a level leaves in the output chains does not matter to the next level |
| PrepareBufs.RunLevels | DPDK/dpdk-19.05/app/test-compress-perf/main.c:545-575 | The loop goes on exactly as long as levels give back the input, whatever the ones before left in the buffers, and fails at the first that does not; all are completed if none does not and the device keeps moving |
| PrepareBufs.RepeatsMore | DPDK/dpdk-19.05/app/test-compress-perf/main.c:264-278 | Reading the file again from its start continues the repetition |
| PrepareBufs.ReadInput | DPDK/dpdk-19.05/app/test-compress-perf/main.c:225-290 | It succeeds exactly when the file is not empty; the input is then the file repeated to the wanted size |
| PrepareBufs.PackedCount | DPDK/dpdk-19.05/app/test-compress-perf/main.c:382-412 | An input chain has exactly as many segments as its bytes need |
| PrepareBufs.SuitsCodec | DPDK/dpdk-19.05/app/test-compress-perf/main.c:347-457 | The buffers made have room for every codec that gives back every non-empty buffer and whose output fits as many segments as its input has |
| PrepareBufs.RunTest | DPDK/dpdk-19.05/app/test-compress-perf/main.c:473-575 | From the file to the last level: for every non-empty file below 2^32 bytes, segment size, chain limit, burst size and schedule no level fails |
| Throughput.BurstsShrink | DPDK/dpdk-19.05/app/test-crypto-perf/cperf_test_throughput.c:146-152 | A full burst is offered while that many operations are left and all the rest after that; burst sizes never grow, so what was left over fits the next burst and its fresh operations fit in front of it |
| Throughput.PassOn | DPDK/dpdk-19.05/app/test-crypto-perf/cperf_test_throughput.c:197-207 | Submitting a prefix moves operations and loses none |
| Throughput.TakeFrom | DPDK/dpdk-19.05/app/test-crypto-perf/cperf_test_throughput.c:155-156 | Filling moves operations and loses none |
| Throughput.GiveBack | DPDK/dpdk-19.05/app/test-crypto-perf/cperf_test_throughput.c:211-219 | Freeing moves operations and loses none |
| Throughput.Runner.constructor | DPDK/dpdk-19.05/app/test-crypto-perf/cperf_test_throughput.c:134-142 | At the start of a burst size everything is in the pool |
| Throughput.Runner.Fill | DPDK/dpdk-19.05/app/test-crypto-perf/cperf_test_throughput.c:152-163 | Fresh operations fill the front of the array without overwriting a held one |
| Throughput.Runner.MoveHeld | DPDK/dpdk-19.05/app/test-crypto-perf/cperf_test_throughput.c:177-183 | The held operations end up right behind the fresh ones, in order |
| Throughput.Runner.Enqueue | DPDK/dpdk-19.05/app/test-crypto-perf/cperf_test_throughput.c:197-207 | The device takes a prefix; pool, held operations and device still partition all operations |
| Throughput.Runner.Dequeue | DPDK/dpdk-19.05/app/test-crypto-perf/cperf_test_throughput.c:211-227 | What comes back goes to the pool; the partition is kept |
| Throughput.Runner.Round | DPDK/dpdk-19.05/app/test-crypto-perf/cperf_test_throughput.c:144-229 | One iteration submits what the device takes of min(burst, operations left) and takes back what it returns, at most a burst; it keeps the partition and fails if and only if fewer than a burst is outside the device while a whole burst is needed |
| Throughput.Runner.Run | DPDK/dpdk-19.05/app/test-crypto-perf/cperf_test_throughput.c:134-245 | A finished run submitted exactly total_ops, got all back, holds nothing and has every operation in the pool; it stops for an empty pool only in a state in which the next fill fails |
| CycleCount.Accepted | DPDK/dpdk-19.05/app/test-crypto-perf/cperf_test_pmd_cyclecount.c:228-255 | What the device takes never exceeds what is needed |
| CycleCount.AcceptedIs | DPDK/dpdk-19.05/app/test-crypto-perf/cperf_test_pmd_cyclecount.c:228-255 | What is taken is the smaller of what is needed and the sum, up to the first refused burst, of a burst or what the device takes of it |
| CycleCount.WholeBurstsAccepted | DPDK/dpdk-19.05/app/test-crypto-perf/cperf_test_pmd_cyclecount.c:228-255 | A device that takes every burst whole takes min(needed, burst times visits) |
| CycleCount.BusyAcceptsAll | DPDK/dpdk-19.05/app/test-crypto-perf/cperf_test_pmd_cyclecount.c:228-255 | A device that never refuses a burst takes all of them |
| CycleCount.FullBursts | DPDK/dpdk-19.05/app/test-crypto-perf/cperf_test_pmd_cyclecount.c:192-225 | The bursts that fit before one does not are the whole bursts of the pool |
| CycleCount.Rotate | DPDK/dpdk-19.05/app/test-crypto-perf/cperf_test_pmd_cyclecount.c:365-370 | Taking a block and putting it back keeps the pool's operations |
| CycleCount.State.constructor | DPDK/dpdk-19.05/app/test-crypto-perf/cperf_test_pmd_cyclecount.c:81-131 | A fresh state has an idle device and an array of nb_descriptors slots |
| CycleCount.State.GetBulk | DPDK/dpdk-19.05/app/test-crypto-perf/cperf_test_pmd_cyclecount.c:204-212 | All or nothing, and only the addressed slots change |
| CycleCount.State.BenchOps | DPDK/dpdk-19.05/app/test-crypto-perf/cperf_test_pmd_cyclecount.c:138-188 | Allocating and freeing leaves the pool with the same operations; it fails exactly when one burst does not fit |
| CycleCount.State.BuildOps | DPDK/dpdk-19.05/app/test-crypto-perf/cperf_test_pmd_cyclecount.c:192-225 | It succeeds exactly when the pool holds enough; on failure the whole bursts taken so far are not put back |
| CycleCount.State.BenchEnq | DPDK/dpdk-19.05/app/test-crypto-perf/cperf_test_pmd_cyclecount.c:228-255 | The device holds exactly the first n operations, n being what it took before it refused a burst |
| CycleCount.State.BenchDeq | DPDK/dpdk-19.05/app/test-crypto-perf/cperf_test_pmd_cyclecount.c:258-279 | Every operation is read back into the slot it came from, in whatever portions |
| CycleCount.State.Round | DPDK/dpdk-19.05/app/test-crypto-perf/cperf_test_pmd_cyclecount.c:328-371 | The pool gets back exactly what it gave, also when only part was submitted |
| CycleCount.State.BenchBurstSize | DPDK/dpdk-19.05/app/test-crypto-perf/cperf_test_pmd_cyclecount.c:283-378 | A finished run submitted and received exactly total_ops and left the pool with the same operations; it runs out of operations exactly when the pool is below min(nb_descriptors, total_ops) |
| PktCopy.PiecesCover | DPDK/dpdk-19.05/app/test-pmd/csumonly.c:533-559 | The pieces copied are the source up to where the copy stopped: nothing lost or reordered |
| PktCopy.GreedyStaysAhead | DPDK/dpdk-19.05/app/test-pmd/csumonly.c:540-558 | Filling each destination segment as far as possible never falls behind another way of cutting |
| PktCopy.CompletesIffCuttable | DPDK/dpdk-19.05/app/test-pmd/csumonly.c:533-562 | The copy runs out of segments exactly when no cutting of the source into that many pieces, none across a source segment, exists |
| PktCopy.OneSegmentIsCuttable | DPDK/dpdk-19.05/app/test-pmd/csumonly.c:598-613 | A packet in one segment never fails for lack of destination segments |
| PktCopy.TooManySegmentsIsNot | DPDK/dpdk-19.05/app/test-pmd/csumonly.c:598-613 | A packet of more segments than configured lengths is never copied |
| PktCopy.ChosenTight | DPDK/dpdk-19.05/app/test-pmd/csumonly.c:598-613 | The chosen segments hold the packet and none is superfluous; they have the configured lengths, and the last of all is stretched to what is left of the packet |
| PktCopy.ChooseSegments | DPDK/dpdk-19.05/app/test-pmd/csumonly.c:596-613 | The counting loop computes that choice without wrap-around in 16 bits |
| PktCopy.WalkAll | DPDK/dpdk-19.05/app/test-pmd/csumonly.c:540-544 | Following the links from the first segment meets every segment in order |
| PktCopy.CopyPiece | DPDK/dpdk-19.05/app/test-pmd/csumonly.c:540-553 | A destination segment is started and linked, and holds its piece; the others keep theirs |
| PktCopy.MbufCopySplit | DPDK/dpdk-19.05/app/test-pmd/csumonly.c:514-574 | ENOBUFS exactly when the source does not fit, success exactly when it does and pkt_len is its length; the segments then hold the pieces |
| PktCopy.CopyStartsIff | DPDK/dpdk-19.05/app/test-pmd/csumonly.c:614-636 | The copy starts exactly when every segment but the first got a buffer of sufficient room |
| PktCopy.FirstSegmentUnchecked | DPDK/dpdk-19.05/app/test-pmd/csumonly.c:625-636 | A concrete buffer of 10 bytes does not stop the copy of 20 bytes to segment 0, whose piece does not fit it |
| PktCopy.CopyStaysInsideIff | DPDK/dpdk-19.05/app/test-pmd/csumonly.c:614-636 | Once the copy starts, every piece fits the buffer it goes to if and only if the first piece does |
| PktCopy.CopyIsFaithful | DPDK/dpdk-19.05/app/test-pmd/csumonly.c:635-654 | A completed copy is a chain of exactly the chosen segments, linked in order and ended by NULL, each within its limit, with the source's bytes |
| PktCopy.Copier.AllocSegments | DPDK/dpdk-19.05/app/test-pmd/csumonly.c:614-633 | Buffers move from the pool to the segments, last first, and none is lost |
| PktCopy.Copier.FreeSegments | DPDK/dpdk-19.05/app/test-pmd/csumonly.c:648-652 | The unused buffers go back to the pool |
| PktCopy.Copier.PktCopySplit | DPDK/dpdk-19.05/app/test-pmd/csumonly.c:580-655 | All or nothing: NULL with every buffer back in the pool, or a faithful copy; the second exactly when the pool has fitting buffers, pkt_len is right and the packet can be cut that way |
| Dissect.DissectsTunnel | DPDK/dpdk-19.05/app/test-pmd/csumonly.c:773-815 | For every tunnelled packet of the grammar (optional VLAN, IPv4 with options or IPv6, VXLAN on any port, VXLAN-GPE, GRE with any optional words, IP in IP) and every configured port and reception mark, outer_l2 + outer_l3 + l2 is the offset of the inner IP header and all other fields are the right ones, independent of stale state, if and only if it is no VXLAN packet or is seen as one: on the VXLAN-GPE port a fourth header byte of 0 to 2 hides it and 3 reveals it, otherwise it needs port 4789 or the mark |
| Dissect.DissectsPlain | DPDK/dpdk-19.05/app/test-pmd/csumonly.c:773-815 | For every untunnelled packet of the grammar l2 is the offset of the IP header, and no tunnel is reported |
| Dissect.DissectsOther | DPDK/dpdk-19.05/app/test-pmd/csumonly.c:144-175 | For every frame, with or without VLAN, whose type is neither IPv4 nor IPv6, whatever the packet before left, the port and the mark: no tunnel, l3, l4 length and protocol zero, l2 the header's length, ethertype the frame's |
| Dissect.TunnelledOther | DPDK/dpdk-19.05/app/test-pmd/csumonly.c:177-328 | The same for an inner Ethernet frame of such a type in VXLAN, VXLAN-GPE and GRE, with the outer fields of the tunnel |
| Dissect.TunnelSeenIff | DPDK/dpdk-19.05/app/test-pmd/csumonly.c:776-809 | A packet is taken for a tunnel if and only if it is UDP marked on reception, to port 4789, or to the VXLAN-GPE port with a next protocol of at most 3; GRE with type IPv4, IPv6 or Ethernet; or IP in IP with version 4 or 6. Otherwise the record is that of its own headers |
| Dissect.Protocol41IsNoTunnel | DPDK/dpdk-19.05/app/test-pmd/csumonly.c:801-808 | IPv6 under protocol number 41 is not seen as a tunnel, although the comment at 677 lists IP in IP without restriction |
| Dissect.IpAndL4 | DPDK/dpdk-19.05/app/test-pmd/csumonly.c:101-137 | An IP header of either version yields its own length, protocol and transport header length |
| Dissect.EtherPacket | DPDK/dpdk-19.05/app/test-pmd/csumonly.c:144-175 | An Ethernet packet with or without VLAN yields its lengths and types |
| Dissect.InsideFound | DPDK/dpdk-19.05/app/test-pmd/csumonly.c:288-327 | An inner packet with or without its own Ethernet header yields the inner fields |
| Dissect.VxlanFound | DPDK/dpdk-19.05/app/test-pmd/csumonly.c:177-204 | A VXLAN packet is taken apart correctly if and only if it is seen as such; otherwise the record is unchanged or the inner packet is taken for a bare IP packet |
| Dissect.StandardVxlanTakenForGpe | DPDK/dpdk-19.05/app/test-pmd/csumonly.c:225-244 | A concrete VXLAN header, and every one with zero reserved bytes, is taken for VXLAN-GPE when the VXLAN-GPE port is 4789 |
| Dissect.GpeFound | DPDK/dpdk-19.05/app/test-pmd/csumonly.c:206-268 | A VXLAN-GPE packet of next protocol 0 to 3 is taken apart correctly |
| Dissect.GreLengthIs | DPDK/dpdk-19.05/app/test-pmd/csumonly.c:277-286 | The optional words counted are those whose flags are set |
| Dissect.GreFound | DPDK/dpdk-19.05/app/test-pmd/csumonly.c:270-328 | A GRE packet with any of the optional words is taken apart correctly |
| Dissect.IpInIpFound | DPDK/dpdk-19.05/app/test-pmd/csumonly.c:331-357 | IP in IP is taken apart by the version nibble |
| Dissect.TunnelOrNothing | DPDK/dpdk-19.05/app/test-pmd/csumonly.c:776-809 | For any memory contents either nothing changes or the lengths found so far become the outer ones |
| Dissect.Offload.constructor | DPDK/dpdk-19.05/app/test-pmd/csumonly.c:739-743 | The structure starts zeroed |
| Dissect.Offload.ParseIpv4 | DPDK/dpdk-19.05/app/test-pmd/csumonly.c:101-118 | Sets the three layer fields of the header at that address and no other; `IpAndL4` says they are the packet's |
| Dissect.Offload.ParseIpv6 | DPDK/dpdk-19.05/app/test-pmd/csumonly.c:120-137 | Likewise for IPv6 |
| Dissect.Offload.ParseEthernet | DPDK/dpdk-19.05/app/test-pmd/csumonly.c:144-175 | Walks at most one VLAN header and leaves the outer fields alone; clears the layer fields for other types |
| Dissect.Offload.ParseVxlan | DPDK/dpdk-19.05/app/test-pmd/csumonly.c:177-204 | Changes nothing for another port on an unmarked packet; otherwise moves the outer fields out before the inner ones are read |
| Dissect.Offload.ParseVxlanGpe | DPDK/dpdk-19.05/app/test-pmd/csumonly.c:206-268 | Changes nothing for another port or next protocol; otherwise moves the outer fields out and accounts for both headers in l2_len |
| Dissect.Offload.GreHeaderLength | DPDK/dpdk-19.05/app/test-pmd/csumonly.c:277-286 | The three increments add up to the header length |
| Dissect.Offload.ParseGre | DPDK/dpdk-19.05/app/test-pmd/csumonly.c:270-328 | Changes nothing for an unknown payload type; otherwise moves the outer fields out and accounts for the GRE words in l2_len |
| Dissect.Offload.ParseEncapIp | DPDK/dpdk-19.05/app/test-pmd/csumonly.c:331-357 | Changes nothing unless the version nibble is 4 or 6; otherwise moves the outer fields out, all but the outer protocol |
| Dissect.Offload.DissectPacket | DPDK/dpdk-19.05/app/test-pmd/csumonly.c:751-815 | The whole dissection in place; the positions of the inner and the outer IP header are the sums of the recorded lengths |
| AclPrefix.SplitKeepsMeaning | DPDK/dpdk-19.05/app/test-acl/main.c:532-541 | An address matches the whole prefix exactly when each 32-bit word matches its own field, for any number of words |
| AclPrefix.MasksAddUp | DPDK/dpdk-19.05/app/test-acl/main.c:532-538 | The word masks add up to the prefix length |
| AclPrefix.FieldReads | DPDK/dpdk-19.05/app/test-acl/main.c:21-30 | Every text strtoul reads, with its blanks and sign, is read as its value when the delimiter follows; a value beyond the limit is refused |
| AclPrefix.EmptyFieldIsZero | DPDK/dpdk-19.05/app/test-acl/main.c:21-30 | A field without digits counts as zero |
| AclPrefix.FieldSound | DPDK/dpdk-19.05/app/test-acl/main.c:21-30 | Whatever is accepted is a number as strtoul reads it (blanks, a sign, digits) followed by the delimiter, with its value within the limit |
| AclPrefix.SignedField | DPDK/dpdk-19.05/app/test-acl/main.c:21-30 | Blanks and a sign before the digits are read; a minus sign makes 2^64 - v of v > 0 |
| AclPrefix.GroupsRead | DPDK/dpdk-19.05/app/test-acl/main.c:386-397 | Any groups written one after another are read back |
| AclPrefix.GroupsSound | DPDK/dpdk-19.05/app/test-acl/main.c:386-397 | Nothing but such texts, each followed by the delimiter, is accepted as groups, and the values are theirs |
| AclPrefix.MaskIff | DPDK/dpdk-19.05/app/test-acl/main.c:21-30 | A last field is accepted if and only if it is empty or a number as strtoul reads it in base 0 (blanks, a sign, 0x, leading 0 or decimal digits) with its value within the limit |
| AclPrefix.NetReads | DPDK/dpdk-19.05/app/test-acl/main.c:516-541 | Eight groups and a mask of any spelling are read as their values, and refused when the mask is no number or above 128 |
| AclPrefix.NetSound | DPDK/dpdk-19.05/app/test-acl/main.c:516-541 | Nothing else is accepted: eight group texts, a slash and a number of at most 128, whose words and length are the result |
| AclPrefix.NetRoundTrip | DPDK/dpdk-19.05/app/test-acl/main.c:516-541 | Reading a printed eight-group prefix gives back its words and length, and refuses it when the length is above 128 |
| AclPrefix.RuleMeansPrefix | DPDK/dpdk-19.05/app/test-acl/main.c:516-541 | The fields made from a printed prefix match exactly the addresses it covers |
| AclPrefix.ParseIpv6Addr | DPDK/dpdk-19.05/app/test-acl/main.c:382-405 | The parser fills the four words and returns the rest exactly when the text is eight groups |
| AclPrefix.ParseIpv6Net | DPDK/dpdk-19.05/app/test-acl/main.c:516-544 | The parser fills the four fields, or refuses and leaves them alone |
| Framebuffer.LastPainterWins | XDP/xdp_pixelflut.c:28-91 | After any frames a cell holds the colour of the last frame that addressed it |
| Framebuffer.UnpaintedKeeps | XDP/xdp_pixelflut.c:28-91 | A cell no frame addressed keeps its value |
| Framebuffer.IndexInjective | XDP/xdp_pixelflut.c:63-63 | No two pixels share a cell |
| Framebuffer.IndexOnto | XDP/xdp_pixelflut.c:20-26 | Every cell of the map belongs to a pixel |
| Framebuffer.ChannelsReadBack | XDP/xdp_pixelflut.c:58-58 | The three channels can be read back from a cell and the padding byte is zero |
| Framebuffer.Coordinate | XDP/xdp_pixelflut.c:56-57 | Shifting and or-ing two bytes reads the big-endian number |
| Framebuffer.FramePaints | XDP/xdp_pixelflut.c:28-91 | A complete IPv6 frame paints cell x + 1280 y, x and y being the big-endian numbers in bytes 46 to 49, with bytes 50 to 52 as channels from the top down, if x < 1280 and y < 720; any other frame paints nothing |
| Framebuffer.Screen.constructor | XDP/xdp_pixelflut.c:20-26 | The map starts with 1280 x 720 cells, all zero |
| Framebuffer.Screen.Receive | XDP/xdp_pixelflut.c:28-91 | One frame changes at most the addressed cell; the frame is dropped |
| Framebuffer.Screen.ReceiveAll | XDP/xdp_pixelflut.c:28-91 | A run of the program paints the fold of its frames |

## Left out

- PktCopy.Copier.PktCopySplit: requires that a buffer reached for segment 0 has room for the first piece, the exact condition of PktCopy.CopyStaysInsideIff, because the source otherwise writes past the buffer; copying of VLAN and offload fields to the first segment is not modelled; zero-length packets and packets of 2^16 bytes or more are outside its hypothesis.
- Pipeline.OrderOverEveryRun: worker read and write bursts of different sizes are outside its hypothesis; the shipped sizes are equal, and with different sizes the worker hands on a different number of packets than it took.
- FlowParser.StacksOverEveryRun: a rejected word ends the run, since the context is set up anew before the next command; parse_int failing its width check without putting the argument back is such a rejection.
- FlowSample.SampleTableOk: the token table is a parameter with a hypothesis; the sample holds the rows of a few items and actions, with structure offsets as on a 64-bit machine.
- FlowParser.ValuesFindTheirDescriptors: how a word converts (addresses, names, prefixes, digits) is a parameter of the word: whether it converts, its length and its number; RSS type names and queue numbers that do not convert are words outside the lists.
- FlowParser.LayoutOverEveryRun: addresses are unbounded integers, so wrap-around of a pointer below zero is not modelled.
- CompressVerify.Verify: all operations succeed; a bad operation status, device error counts, failed allocations and a too small output area are not modelled, nor the compression ratio.
- PrepareBufs.RunLevels: a codec that changes single buffers although all of them together come out as the input is outside its hypothesis.
- PrepareBufs.RunTest: for codecs that give every non-empty buffer back; what other codecs do is stated by PrepareBufs.RunLevels; requires a file and a wanted size below 2^32 bytes, the exact condition under which PrepareBufs.Prepare keeps the input.
- PrepareBufs.Prepare: failing allocations of segments are not modelled below 2^32 bytes, since each pool gives out exactly what it was created with.
- Throughput.Runner.Run: the device is a FIFO; the counters of failed visits and the cycle counts are not modelled.
- CycleCount.State.BenchBurstSize: retry counters, the delay and the cycle counts are not modelled.
- Dissect.DissectsTunnel: outer_l4_proto for IP in IP is the stale one, as in the source.
- Framebuffer.Screen.Receive: one program instance; concurrent updates from several CPUs are not modelled.
- `cperf_test_verify.c` and `comp_perf_test_benchmark.c`: the first has no leftover move, the second repeats the loop modelled here.
- Completion and help callbacks, the literal encapsulation headers and the driver calls of `cmdline_flow.c`.
- Checksum, TSO, GRO and GSO flag selection in `csumonly.c`.
- Hash, LPM and ACL table internals, ring and pool implementations, and memory ordering.
- `cmdline_tm.c`, `cmdline_mtr.c`, `bpf_cmd.c`, proc-info and the BPF user program: wrappers around library calls.
