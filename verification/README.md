# Ghostcontrol core: a verified model

Ghostcontrol adapts game controllers on a console: it reads HID and Bluetooth pads, applies profiles, publishes samples
into a running game, keeps its configuration in files, serves local clients, and prints QR codes for its pages. This
project models the parts of it with the most state and arithmetic and proves what they promise.

| files | what they model |
|---|---|
| `Gf256`, `ReedSolomon`, `ErrorDetection` | arithmetic in the field of 256 elements, the Reed-Solomon generator and remainder, and why damage is noticed |
| `QrStream`, `QrSymbol`, `QrCapacity`, `QrCode`, `QrCodec`, `QrEncoder`, `QrDecoder`, `QrReading`, `QrTables` | the QR encoder and decoder: segments, interleaving, placement, masking, the format word (sections 7.4 to 7.9 of ISO/IEC 18004:2015), and its values against that standard |
| `SeqLock`, `Reads`, `Routes` | lock-free publication of pads to a reader inside the game, the reads that succeed, and the choice of routes |
| `Ini`, `Controllers`, `ControllersFile` | the settings syntax and the controller rules' file |
| `Profiles`, `Store`, `StoreRuns`, `ConfigStore`, `Mutations`, `FileChanges` | the transactional configuration store, and what each of its operations changes |
| `Resolver`, `Verdicts` | the decision which rule and profile govern a controller |
| `HidLayout`, `Descriptors`, `HidInput`, `HidMeaning`, `HidState` | the HID descriptor compiler (section 6.2.2 of the HID 1.11 class definition), the report decoder, what descriptors and reports mean, and the latest-value state |
| `Ipc`, `Requests`, `Bluetooth` | ownership and service of client connections, and admission of Bluetooth pads |
| `AppPad`, `AppPadEnds`, `AppPadWire` | the leased rumble and light contract, how its events end, and its wire form |
| `Patterns`, `Sticks`, `ProfileMeaning` | button patterns, remapping, triggers, bound axes and stick curves |
| `Install` | swapping an update into place |
| `BitString`, `Bytes`, `Quotients`, `Sets`, `Wrappers` | shared arithmetic, counting and types |

Code that works by changing things step by step is a method, or a class whose methods are proved against functions of
the old state; what the program promises is proved about those functions. Code that runs in several threads is a state
machine: each critical section, shared load, store and call out is one step, steps interleave freely, and theorems are
about every run. Memory is sequentially consistent. Every operation that the operating system may refuse is allowed to
fail at any time. So that success can be promised too, a store or an installation knows how many of its requests will be
refused (`refusals`, any number): with none an operation does what it can do, and with one it is undone exactly.

Definitions are not left to speak for themselves. Beside each stand theorems about what goes in and what comes out: every
verdict and every end of an event has its cause and every cause its effect, undisturbed reads and requests succeed, and
tables agree with the standards they come from.

Three promises turned out to need a condition:

* An accepted pad sample is less than 250 ms old if no installation of routes stores a smaller sequence number than the
  one that is there between the read's last load of the epoch and its last load of the sequence
  (`SeqLock.LeaseOfRead`). That can happen after a publication that failed when its number may already have been
  stored. `LateAcceptedIff` says exactly which late samples can get through when the epoch has been confirmed: those for
  which the bridge still counts from the sequence the read loaded. `LeaseCanBeMissed` gives one.
* A refused HID report leaves the pad unchanged for layouts with claimed fields. The positional fallback for other
  layouts may have moved the pad before it meets a field that the report does not hold;
  `HidInput.FallbackKeepsPadIff` says exactly when it cannot, and `FallbackRefusalCanChange` gives a descriptor and a
  report.
* A creation of a profile that ends without commit and without quarantine leaves the disk as it was, whatever fails, if
  and only if it is refused at once or nothing that a write would replace (a regular file, a FIFO, a socket or a device)
  is in the profile's place: `StoreRuns.CreateRollsBackIff`. `CreateCanLose` gives one such entry that is lost.

`Store.Codec` holds the serializers and parsers of profiles and runtime settings as arbitrary functions, so the results
about the store hold for whatever they do.

## Model

| member | source | states |
|---|---|---|
| `Gf256.Distributes` | tools/make-qr-assets.py:34-55 | multiplication in the field of 256 elements distributes over addition, on both sides |
| `Gf256.MulAssociates` | tools/make-qr-assets.py:34-55 | it is associative |
| `Gf256.MulCommutes` | tools/make-qr-assets.py:34-55 | it is commutative |
| `Gf256.NoZeroDivisors` | tools/make-qr-assets.py:34-55 | a product is zero only if a factor is |
| `Gf256.PowerInjective` | tools/make-qr-assets.py:34-46 | the 255 powers of 2 that the table lists are all different, so the logarithm table is well defined |
| `Gf256.PowerSurjective` | tools/make-qr-assets.py:34-46 | every nonzero element is one of those powers |
| `Gf256.LookupMul` | tools/make-qr-assets.py:52-55 | the log/exp lookup stays inside the tables and gives the field product, for all 65536 pairs |
| `Gf256.BuildTables` | tools/make-qr-assets.py:34-46 | the doubling loop fills both tables validly: exp lists the powers, log inverts it |
| `QrTables.FieldModulus` | tools/make-qr-assets.py:34-46 | the field is that of the standard: the eighth power of x is x^4 + x^3 + x^2 + 1 |
| `ReedSolomon.GeneratorMonic` | tools/make-qr-assets.py:58-68 | the generator polynomial is monic, so its leading coefficient may be dropped |
| `ReedSolomon.GeneratorRoots` | tools/make-qr-assets.py:58-68 | it vanishes at a^0 to a^(degree-1), for every degree |
| `ReedSolomon.RsDivisor` | tools/make-qr-assets.py:58-68 | the in-place double loop computes exactly the generator without its leading coefficient |
| `ReedSolomon.RsRemainder` | tools/make-qr-assets.py:71-79 | the shift-register loop computes the remainder function |
| `ReedSolomon.RsSyndromes` | tools/make-qr-assets.py:82-93 | each output is the block evaluated at the corresponding power |
| `ReedSolomon.RemainderCodeword` | tools/make-qr-assets.py:71-93 | any data followed by its remainder has only zero syndromes, for every length and degree |
| `ErrorDetection.OnlyZero` | tools/make-qr-assets.py:82-93 | a Vandermonde system with distinct points and zero moments has only the zero solution |
| `ErrorDetection.MinimumWeight` | tools/make-qr-assets.py:82-93 | a codeword of at most 255 symbols with at most ecLen nonzero ones is zero |
| `ErrorDetection.CorruptionDetected` | tools/make-qr-assets.py:488-492 | changing between 1 and ecLen symbols of a valid block of at most 255 makes some syndrome nonzero |
| `ErrorDetection.RemainderUnique` | tools/make-qr-assets.py:71-93 | the remainder is the only tail that makes the data a codeword |
| `QrStream.BlocksFacts` | tools/make-qr-assets.py:98-110 | the block table is consistent for all ten versions: data and check symbols add up to the total, and each block has at most 255 |
| `QrTables.SizeTable` | tools/make-qr-assets.py:98-110 | payload bytes, blocks and check symbols of each version are those of error correction level M in the standard, the blocks as equal as can be |
| `QrTables.SegmentMeaning` | tools/make-qr-assets.py:324-334 | a segment is the indicator 0100, the length in 8 or 16 bits, and the bytes, high bit first |
| `QrTables.TerminatorMeaning` | tools/make-qr-assets.py:335-339 | terminator and fill are zeros: four while there is room, then fewer than eight |
| `QrTables.PadMeaning` | tools/make-qr-assets.py:342-346 | the pad codewords are 11101100 and 00010001 in turn |
| `QrStream.ParseDataCodewords` | tools/make-qr-assets.py:324-346 | mode, length, bytes, terminator and padding read back as the payload, for every payload within capacity |
| `QrReading.ParseIff` | tools/make-qr-assets.py:494-512 | a stream is read as a payload if and only if it starts with the segment the writer makes of that payload |
| `QrStream.InterleavedAt` | tools/make-qr-assets.py:359-363 | where symbol i of block k lands in the interleaved row order, also when blocks differ in length |
| `QrStream.DeinterleaveInterleave` | tools/make-qr-assets.py:470-486 | dealing the symbols back out in the reader's order recovers every block, whatever follows them |
| `QrStream.JoinSplit` | tools/make-qr-assets.py:494-496 | joining the blocks gives back the data they were cut from |
| `QrStream.SymbolLength` | tools/make-qr-assets.py:348-366 | the interleaved symbols fill the version's total exactly |
| `QrStream.DecodeSymbolCodewords` | tools/make-qr-assets.py:466-512 | what the writer interleaves, the reader separates, checks and parses back to the payload |
| `QrSymbol.WalkNoRepeat` | tools/make-qr-assets.py:189-202 | the zigzag walk visits no module twice and stays inside the symbol |
| `QrSymbol.DataPathFacts` | tools/make-qr-assets.py:189-202 | so the data positions are distinct and none is a function module |
| `QrCapacity.WalkCovers` | tools/make-qr-assets.py:189-202 | the walk misses no module outside the timing column |
| `QrCapacity.DataPathCovers` | tools/make-qr-assets.py:189-202 | so the data positions are exactly the modules that are no function modules |
| `QrCapacity.DataPathSuffices` | tools/make-qr-assets.py:203-204 | in each of the ten versions they suffice for all codewords of the block table |
| `QrSymbol.FormatWordAccepted` | tools/make-qr-assets.py:232-236 | every format word the writer computes passes the reader's BCH check |
| `QrSymbol.FormatAcceptedIff` | tools/make-qr-assets.py:384-389 | the reader accepts a 15-bit word exactly when it is the writer's word for its top five bits |
| `QrTables.FormatTable` | tools/make-qr-assets.py:232-236 | the eight words drawn are those of the standard's table for level M |
| `QrTables.FormatRuns` | tools/make-qr-assets.py:237-252 | the two copies run where the standard puts them, in its order |
| `QrTables.MaskMeaning` | tools/make-qr-assets.py:206-228 | the eight masks as patterns of rows, columns, diagonals and products |
| `QrTables.AlignmentMeaning` | tools/make-qr-assets.py:112-123 | alignment centres: column and row 6, the seventh from the far edge, and evenly between |
| `QrCode.Code.constructor` | tools/make-qr-assets.py:133-137 | a new symbol is light and unreserved everywhere |
| `QrCode.Code.Set` | tools/make-qr-assets.py:140-142 | one module is set and reserved, nothing else changes |
| `QrCode.Code.Finder` | tools/make-qr-assets.py:144-152 | exactly the modules within distance 4 that lie inside are drawn, rings light at 2 and 4 |
| `QrCode.Code.AlignmentPattern` | tools/make-qr-assets.py:154-157 | exactly the 5 by 5 square is drawn, its inner ring light |
| `QrCode.Code.TimingPatterns` | tools/make-qr-assets.py:161-163 | row and column 6 alternate, nothing else changes |
| `QrCode.Code.AlignmentPatterns` | tools/make-qr-assets.py:167-173 | alignment patterns stand at all pairs of centres but the three corners |
| `QrCode.Code.ReserveFormat` | tools/make-qr-assets.py:175-182 | the format areas are reserved and light but for the dark module |
| `QrCode.Code.DrawFunctionPatterns` | tools/make-qr-assets.py:159-182 | the drawn and reserved modules are exactly the declared function modules, in declared colours |
| `QrCode.Code.DrawCodewords` | tools/make-qr-assets.py:185-204 | bit i goes to the i-th data position, nothing else changes, and it fails exactly when there are more bits than positions |
| `QrCode.Code.ApplyMask` | tools/make-qr-assets.py:206-228 | each unreserved module is inverted exactly when the mask says so; reserved ones keep their colour |
| `QrCode.Code.FormatBits` | tools/make-qr-assets.py:232-236 | the division loop yields the masked BCH word, related to the reader's check by the two format lemmas |
| `QrCode.Code.DrawFormat` | tools/make-qr-assets.py:230-252 | both copies of the format word stand in reserved modules; no other module changes but the dark one |
| `QrCodec.SymbolUnique` | tools/make-qr-assets.py:368-374 | codewords, version and mask determine every module |
| `QrCodec.DecodeOfSymbol` | tools/make-qr-assets.py:415-514 | decoding a finished symbol gives what its codewords decode to, with the version and mask it was drawn with |
| `QrCodec.NeverLeftOver` | tools/make-qr-assets.py:466-468 | whatever the matrix, once its version and mask are read the path has bits for all codewords: a decode never fails for want of bits |
| `QrReading.DecodesIff` | tools/make-qr-assets.py:415-514 | decoding is exact: a matrix is decoded to a payload, version and mask if and only if it is a square of that version, one of its format words is the one of level M for that mask (the first that is a format word counts), all its blocks are sound, and their data start with the payload's segment |
| `QrCodec.RoundTrip` | tools/make-qr-assets.py:415-514 | every payload within capacity, in every version 1 to 10 and mask, is decoded from its finished symbol exactly |
| `QrCodec.DamageRejected` | tools/make-qr-assets.py:488-492 | if 1 to ecLen symbols of any block are changed, decoding the symbol reports a failing block |
| `QrReading.FormatChoice` | tools/make-qr-assets.py:392-412 | the format word read is the first copy's, the second's if the first is none, and there is none only if neither is |
| `QrReading.SecondCopySuffices` | tools/make-qr-assets.py:392-412 | a symbol whose first format copy was changed into no format word is decoded as before |
| `QrEncoder.Push` | tools/make-qr-assets.py:327-329 | appends the value's bits, high bit first |
| `QrEncoder.BuildSegment` | tools/make-qr-assets.py:331-334 | the pushes spell the byte-mode segment |
| `QrEncoder.Terminate` | tools/make-qr-assets.py:335-339 | terminator and bit padding as the specification function, which keeps the segment as a prefix |
| `QrEncoder.PadUp` | tools/make-qr-assets.py:342-346 | alternating pad bytes up to the data total |
| `QrEncoder.BuildData` | tools/make-qr-assets.py:324-346 | the data codewords that ParseDataCodewords reads back |
| `QrEncoder.BuildBlocks` | tools/make-qr-assets.py:349-358 | the codewords cut by the block table, each block with its remainder |
| `QrEncoder.InterleaveRows` | tools/make-qr-assets.py:359-363 | the nested loops interleave as specified |
| `QrEncoder.BuildCodewords` | tools/make-qr-assets.py:324-366 | the whole sequence placed in the symbol |
| `QrEncoder.ChooseVersion` | tools/make-qr-assets.py:314-322 | the asked version or else the smallest that fits; refused exactly when there is none |
| `QrEncoder.FinishedSymbol` | tools/make-qr-assets.py:370-374 | drawing patterns, codewords, mask and format in this order leaves each in place: the result is a symbol for these codewords |
| `QrEncoder.DrawSymbol` | tools/make-qr-assets.py:368-374 | the finished symbol, or a failure exactly when the codewords do not fit the data positions |
| `QrEncoder.EncodePayload` | tools/make-qr-assets.py:312-378 | it returns exactly when a version fits, never failing to place a codeword; the modules are a symbol of the payload with the chosen version and mask, and without a given mask the one of least penalty, the lowest on a tie |
| `QrDecoder.ReadFormat` | tools/make-qr-assets.py:392-412 | the first of the two copies that passes the check, or none |
| `QrDecoder.ReadBits` | tools/make-qr-assets.py:430-464 | the modules along the data path with the mask undone |
| `QrDecoder.DealRows` | tools/make-qr-assets.py:475-486 | the loops deal the symbols as Deinterleave does and report how far they read |
| `QrDecoder.CheckAll` | tools/make-qr-assets.py:488-492 | passes exactly when every block is a codeword |
| `QrDecoder.Take` | tools/make-qr-assets.py:502-506 | takes the leading bits as a number, or fails when too few are left |
| `QrDecoder.ParseStream` | tools/make-qr-assets.py:498-512 | mode, length and bytes of the stream, with the failure of each |
| `QrDecoder.JoinBlocks` | tools/make-qr-assets.py:494-496 | the data of all blocks in order |
| `QrDecoder.ReadCodewords` | tools/make-qr-assets.py:466-512 | from codewords to payload or failure |
| `QrDecoder.DecodeMatrix` | tools/make-qr-assets.py:415-514 | for every matrix, the outcome of the decode function, error cases included |
| `QrDecoder.WriteAndReadBack` | tools/make-qr-assets.py:575-602 | encoding then decoding returns the payload exactly when it is within the version's capacity |
| `SeqLock.NextSequenceIs` | core/src/gc_ds4_policy.c:126-131 | the value after n+1 publications is the successor of the value after n, across the wrap |
| `SeqLock.BankAlternates` | core/src/gc_ds4_policy.c:126-131 | the bank index alternates with every publication, also where the counter wraps |
| `SeqLock.SequenceDistinct` | core/src/gc_ds4_policy.c:126-131 | equal values mean the same publication unless 2^32-2 lie between |
| `SeqLock.WriterKept` | core/src/gc_ds4_game.c:610-766 | every step of install, publish, remove, adopt and their failures keeps the stored bank, routes and deadline those of the current publication while the epoch is even |
| `SeqLock.OtherFrame` | core/src/gc_ds4_game.c:610-766 | no step but the reader's changes the routes of a standing even epoch, or the bank and publication of a standing sequence |
| `SeqLock.Kept` | core/src/gc_ds4_game_stub.c:6-53 | every step of either side keeps the joint invariant |
| `SeqLock.AcceptedIsOnePublication` | core/src/gc_ds4_game_stub.c:6-53 | in every interleaving an accepted pad is, byte for byte, the connected pad one publication held for the only route with that handle |
| `SeqLock.AcceptedWithinLease` | core/src/gc_ds4_game_stub.c:33-49 | an accepted sample was published less than 250 ms before the clock check, if the epoch still stands at the final sequence load |
| `SeqLock.LeaseOfRead` | core/src/gc_ds4_game_stub.c:33-49 | an accepted sample is within its lease if between that read's last load of the epoch and its last load of the sequence no installation stores a smaller sequence than the one that is there |
| `SeqLock.InWindow` | core/src/gc_ds4_game_stub.c:46-49 | every read about to load the sequence for the last time is in such a window |
| `SeqLock.LeaseCanBeMissed` | core/src/gc_ds4_game_stub.c:33-49 | from a reachable read whose sample is exactly 250 ms old: a removal and an installation that fall inside that window and take the stored sequence back, after which it is accepted |
| `SeqLock.LateAcceptedIff` | core/src/gc_ds4_game.c:680-766 | once the epoch is confirmed, a sample already past its lease can still be accepted if and only if the bridge counts from the sequence the read loaded |
| `Reads.UndisturbedRead` | core/src/gc_ds4_game_stub.c:6-53 | a read that nothing disturbs ends, and is accepted if and only if one slot alone holds the handle, its pad is connected, the epoch is even and the lease has not run out; then it has exactly that pad, whichever of the four slots it is |
| `Reads.RetriedRead` | core/src/gc_ds4_game_stub.c:12-49 | a read that was overtaken once or twice starts again and has that same outcome if nothing disturbs it any more |
| `Reads.Delivers` | core/src/gc_ds4_game.c:610-766 | from wherever routes may be installed, any installation and publication whose writes succeed make every route with a connected pad and a handle of its own readable, until the lease runs out |
| `Routes.SelectRoutes` | core/src/gc_ds4_policy.c:37-103 | the verdicts are the declared ones and the routes are exactly the sources judged fit, in order; the rest of both buffers is untouched |
| `Routes.JudgeSource` | core/src/gc_ds4_policy.c:52-87 | verdict and target of one source as far as it does not depend on earlier routes |
| `Routes.Candidates` | core/src/gc_ds4_policy.c:65-78 | no match, the only match, or several, told apart |
| `Routes.JudgedOnce` | core/src/gc_ds4_policy.c:37-103 | the declared verdicts exclude one another |
| `Routes.HandlesDistinct` | core/src/gc_ds4_policy.c:86-95 | no two routes lead to one handle |
| `Routes.RoutedIffOk` | core/src/gc_ds4_policy.c:97-102 | a source has a route exactly when its verdict is Ok |
| `Routes.RoutesUnique` | core/src/gc_ds4_policy.c:37-103 | sources and pads determine the routes |
| `Routes.RouteMeaning` | core/src/gc_ds4_policy.c:9-103 | a route leads from a connected source of known identity to the only fit pad of the game with its user and index |
| `Routes.FreeSourceRouted` | core/src/gc_ds4_policy.c:37-103 | a fit source with a fit pad is routed to it when nothing competes |
| `Ini.TrimText` | core/src/gc_ini.c:24-34 | the scan from both ends trims as the recursive definition |
| `Ini.FillLine` | core/src/gc_ini.c:50-66 | one line into the bounded buffer: its text, where the next starts, or too long |
| `Ini.ReadItem` | core/src/gc_ini.c:68-112 | what a line means: blank, section, entry or malformed |
| `Ini.Scan` | core/src/gc_ini.c:36-119 | the scan hands the entry function what the definition says, and stops at the first refusal |
| `Ini.InterpretEntry` | core/src/gc_ini.c:92-112 | key=value is that entry with one pair of quotes removed, for every key and value without blanks at their ends |
| `Ini.InterpretOther` | core/src/gc_ini.c:68-103 | which lines are comments and which are malformed, behind any blanks |
| `Ini.UnquoteMeaning` | core/src/gc_ini.c:104-110 | one pair of equal quotes is taken off, and nothing else |
| `Ini.ParseLines` | core/src/gc_ini.c:36-119 | scanning text written line by line feeds exactly those lines |
| `ControllersFile.ParseHex` | core/src/gc_config.c:578-589 | a number written in hexadecimal reads back as itself |
| `ControllersFile.ParseDecimal` | core/src/gc_config.c:578-589 | a number written in decimal reads back as itself |
| `ControllersFile.NumberForms` | core/src/gc_config.c:578-589 | blanks and a plus sign do not matter, a minus sign wraps round at 64 bits, a leading zero is octal, 0x hexadecimal |
| `ControllersFile.DigitSpelling` | core/src/gc_config.c:578-589 | the sixteen digits, in either case when read |
| `ControllersFile.FieldReads` | core/src/gc_config.c:917-963 | each field of a valid rule reads back as written, names with quotes, blanks or equals signs included |
| `ControllersFile.KeysRead` | core/src/gc_config.c:876-963 | the keys of a rule, each once and in any order, set exactly its fields |
| `ControllersFile.ShortRule` | core/src/gc_config.c:876-963 | vendor, product and protocol suffice: what every other field is without its key |
| `ControllersFile.LoadSerialize` | core/src/gc_config.c:982-1043 | any storable rule list written in either schema reads back as the same rules in the same order |
| `ControllersFile.SerializesIff` | core/src/gc_config.c:1045-1116 | writing succeeds exactly for storable lists: the 64 KiB buffer never refuses one |
| `ControllersFile.RuleSpelling` | core/src/gc_config.c:1075-1108 | every line of a written rule, in both schemas |
| `ControllersFile.LoadStorable` | core/src/gc_config.c:1004-1039 | whatever a file holds, the rules read are valid and no id or controller occurs twice |
| `ControllersFile.RewriteKeepsRules` | core/src/gc_config.c:982-1116 | rewriting any readable file changes no rule |
| `ControllersFile.LoadControllers` | core/src/gc_config.c:982-1043 | the checks after the scan accept exactly what the definition accepts |
| `ControllersFile.SerializeControllers` | core/src/gc_config.c:1045-1116 | the two passes write exactly the specified text or refuse |
| `Profiles.CheckAssociations` | core/src/gc_config.c:1383-1404 | passes exactly when no two rules share a profile and every existing profile agrees with its rule on the owner |
| `ConfigStore.ConfigStore.constructor` | core/src/gc_config.c:1338-1371 | a new store publishes nothing and authorises nothing |
| `ConfigStore.ConfigStore.AtomicWrite` | core/src/gc_config.c:356-412 | the file has the new text or the disk is as before; links and folders are refused, anything else is replaced, unless the system refuses |
| `ConfigStore.ConfigStore.ReadFile` | core/src/gc_config.c:434-478 | text that is there, bounded and without NUL, or a failure |
| `ConfigStore.ConfigStore.SnapshotOptional` | core/src/gc_config.c:480-504 | what must be put back to have the file as it is |
| `ConfigStore.ConfigStore.RestoreFile` | core/src/gc_config.c:506-526 | the file is put back or the disk is unchanged, and success means put back |
| `ConfigStore.ConfigStore.InvalidatePolicy` | core/src/gc_config.c:119-134 | quarantine: the generation rises at most once and not past its maximum, which is remembered as exhausted |
| `ConfigStore.ConfigStore.ReloadLocked` | core/src/gc_config.c:1406-1447 | everything the disk says is published at once with generation +1, or nothing changes; it succeeds if the disk can be loaded and no request is refused |
| `ConfigStore.ConfigStore.Reload` | core/src/gc_config.c:1449-1461 | published or quarantined |
| `ConfigStore.ConfigStore.Replace` | core/src/gc_config.c:1794-1806 | one file replaced and published, exactly restored, or quarantined; published if nothing is refused, and everything as before if one thing goes wrong |
| `ConfigStore.ConfigStore.SaveRuntime` | core/src/gc_config.c:1769-1810 | the plan for the runtime file is published, undone exactly or quarantined; owned profiles are refused as active; as for every operation below, an attainable plan is carried out if nothing is refused, and a single failure leaves everything as it was |
| `ConfigStore.ConfigStore.SaveProfileLocked` | core/src/gc_config.c:1812-1858 | the same for one profile file |
| `ConfigStore.ConfigStore.SaveProfile` | core/src/gc_config.c:1860-1908 | the same, refused exactly for protected profiles |
| `ConfigStore.ConfigStore.EditProfile` | core/src/gc_config.c:1910-1956 | the same for one edited key |
| `ConfigStore.ConfigStore.CreateProfile` | core/src/gc_config.c:2844-2909 | the same if the file was not there; otherwise a failed reload removes it |
| `ConfigStore.ConfigStore.RenameProfile` | core/src/gc_config.c:2911-3066 | the same over three files; renaming to the same name changes nothing |
| `ConfigStore.ConfigStore.RenameFiles` | core/src/gc_config.c:2994-3056 | new file, runtime and old file changed in order and restored file by file |
| `ConfigStore.ConfigStore.MutateInstanceHeld` | core/src/gc_config.c:1996-2097 | an instance rule created or changed within its identity; the rule returned is the one planned and published |
| `ConfigStore.ConfigStore.SaveModelHeld` | core/src/gc_config.c:2116-2200 | the same for a model rule: the readback after a commit cannot fail |
| `ConfigStore.ConfigStore.SaveController` | core/src/gc_config.c:2202-2252 | a whole-rule save routed by what is stored under its id |
| `ConfigStore.ConfigStore.SetControllerOutput` | core/src/gc_config.c:2263-2294 | only the output type of the stored rule changes |
| `ConfigStore.ConfigStore.MutateInstance` | core/src/gc_config.c:2099-2112 | the instance mutation under its own lock |
| `ConfigStore.ConfigStore.MutateCompat` | core/src/gc_config.c:2317-2379 | routed and scoped by the published rule |
| `ConfigStore.ConfigStore.SaveSetupLocked` | core/src/gc_config.c:2400-2611 | profile, rules and runtime published together, all restored, or quarantined |
| `ConfigStore.ConfigStore.RollBackThree` | core/src/gc_config.c:2577-2597 | undoing only what was written restores the disk exactly, and a failed undo leaves each file with its old or new text |
| `ConfigStore.ConfigStore.SaveSetup` | core/src/gc_config.c:2780-2789 | the same as an operation |
| `ConfigStore.ConfigStore.SaveSetupPreserving` | core/src/gc_config.c:2791-2833 | the same for the product's own model rule, which is returned as saved |
| `ConfigStore.ConfigStore.SaveSetupForController` | core/src/gc_config.c:2613-2778 | rule and owned profile of one controller published together; commit and verification reported apart |
| `StoreRuns.GenerationAdvances` | core/src/gc_config.c:1406-1447 | in every ending of every operation the generation rises by at most one, never wraps, rises exactly on a commit that is valid, and stands still only if nothing published changed |
| `StoreRuns.QuarantineLasts` | core/src/gc_config.c:108-134 | from a quarantine to the next successful reload no operation changes memory or disk |
| `StoreRuns.PlanLawful` | core/src/gc_config.c:1996-2778 | every mutator's plan leaves the rules' file alone or changes one rule within its identity, or adds one |
| `StoreRuns.StepTracked` | core/src/gc_config.c:1996-2778 | each operation changes at most one rule and leaves the others, and the file continues the published rules however it ends |
| `StoreRuns.RuleIdentity` | core/src/gc_config.c:1996-2778 | over every run, through failures, quarantine and reload, an id keeps its scope, VID, PID and instance id, and its profile is bound at most once; from then on its protocol, interface and endpoints stay |
| `StoreRuns.RulesRemain` | core/src/gc_config.c:1996-2778 | no published rule is ever lost |
| `StoreRuns.CreateRollsBackIff` | core/src/gc_config.c:2894-2905 | all endings of a creation without commit and quarantine leave the disk as it was if and only if it is refused at once or nothing that a write would replace, neither file nor device, is in the profile's place |
| `StoreRuns.CreateCanLose` | core/src/gc_config.c:2894-2905 | for a file or a device that was there, a snapshot in which a failed creation removes it |
| `Mutations.InstancePlanIff` | core/src/gc_config.c:1996-2056 | an instance mutation is accepted if and only if the request is valid, fits what is stored under its id or is a new unbound rule, and rules and profiles still agree |
| `Mutations.MutatedInstance` | core/src/gc_config.c:2026-2056 | a committed instance mutation publishes one rule: the output type is the requested one if the request carries one, otherwise the stored one; setting the output changes nothing else; Legacy9 makes the interface automatic; all other fields are the request's, scope, product and profile stay |
| `Mutations.SavedRule` | core/src/gc_config.c:2202-2252 | a committed save publishes the rule as asked, in the scope of what is stored, with the stored output type if that is to be preserved |
| `Mutations.OutputChanged` | core/src/gc_config.c:2263-2294 | setting an output publishes the stored rule with that output and nothing else changed |
| `Mutations.MutatedCompat` | core/src/gc_config.c:2317-2379 | what an older client's request publishes, for either scope |
| `FileChanges.RuntimeAccepted` | core/src/gc_config.c:1769-1810 | which runtime settings are accepted |
| `FileChanges.RuntimeSaved` | core/src/gc_config.c:1769-1810 | accepted ones are written and published, and no other file and no rule changes |
| `FileChanges.ProfileAccepted` | core/src/gc_config.c:1860-1908 | which profiles may be saved: nobody's, before and after, or one that stays what it is to its owner |
| `FileChanges.ProfileSaved` | core/src/gc_config.c:1812-1858 | one file is written, no rule changes |
| `FileChanges.ProfileEdited` | core/src/gc_config.c:1910-1956 | an edit writes the first profile with the id, with that key applied |
| `FileChanges.EditAccepted` | core/src/gc_config.c:1910-1956 | such an edit is planned whenever the profile may be changed and read back |
| `FileChanges.ProfileCreated` | core/src/gc_config.c:2844-2909 | a creation writes a blank profile under a new id |
| `FileChanges.CreateAccepted` | core/src/gc_config.c:2844-2880 | which ids can be created |
| `FileChanges.ProfileRenamed` | core/src/gc_config.c:2911-3066 | the old file is gone, the new one holds the profile under its new id, and the runtime settings follow if they named it; the default profile, owned profiles and taken names are refused |
| `FileChanges.SetupSaved` | core/src/gc_config.c:2400-2611 | a setup writes its profile, enrols its rule and makes the choice of profile automatic |
| `FileChanges.SetupPreserved` | core/src/gc_config.c:2791-2833 | a guided setup keeps the product's own model rule, or adds a plain one |
| `FileChanges.BoundSaved` | core/src/gc_config.c:2613-2778 | a controller's setup publishes its rule, bound to the profile, and writes profile and rules' file, nothing else |
| `FileChanges.SetupResolves` | core/src/gc_config.c:1599-2778 | setup and resolver agree: afterwards that controller resolves to that rule and profile, provided both are in force |
| `ConfigStore.OpenedTracked` | core/src/gc_config.c:1338-1371 | after the first successful reload a store is a start for those runs |
| `Resolver.ResolveController` | core/src/gc_config.c:1563-1638 | the loops decide as specified |
| `Resolver.FailsClosed` | core/src/gc_config.c:1596-1598 | with any instance rule for the product and no stable identity, no rule and no profile is returned |
| `Resolver.InstanceIff` | core/src/gc_config.c:1599-1624 | INSTANCE is returned exactly when live mode, exact enabled rule, binding and the first profile with the bound id, owned and enabled, all agree |
| `Resolver.InstanceIffInRuns` | core/src/gc_config.c:1599-1624 | so it is on every snapshot any run of the store reaches |
| `Resolver.NeverOwned` | core/src/gc_config.c:1625-1634 | MODEL and NONE never carry an owned profile, and vetoes carry none |
| `Resolver.OrderIrrelevant` | core/src/gc_config.c:1580-1602 | rules in any other order give the same decision, because no two stored rules name one controller |
| `Verdicts.GovernedVerdict` | core/src/gc_config.c:1599-1637 | with a governing rule (the exact one in live mode, or else the only model rule): VETO if and only if it is disabled or ignored, BINDING_MISMATCH if and only if it is in force and does not bind, MODEL if and only if it is a model rule in force that binds; the first two without a profile |
| `Verdicts.UngovernedVerdict` | core/src/gc_config.c:1599-1637 | NONE if and only if no rule governs |
| `Verdicts.ClosedVerdict` | core/src/gc_config.c:1573-1601 | the answers that fail closed, each exactly for its own reason, and their precedence |
| `Verdicts.RefusedIffMalformed` | core/src/gc_config.c:1536-1569 | only a malformed request gets no answer |
| `Verdicts.ScoreMeans` | core/src/gc_profile.c:923-937 | which profiles match, and which match is better: vendor before product before protocol |
| `Verdicts.SharedIs` | core/src/gc_config.c:1625-1634 | the profile of a MODEL or NONE answer is the first free one with the active id, or with auto the first of the best |
| `Verdicts.ProtocolClasses` | core/src/gc_config.c:1529-1534 | protocols without case, HID and DirectInput as one: an equivalence |
| `Verdicts.BindingMeans` | core/src/gc_config.c:1606-1610 | what a rule leaves automatic admits any connection; what it names only a USB connection can have |
| `Verdicts.InstanceAutomatic` | core/src/gc_config.c:1536-1624 | so INSTANCE is returned only for a Bluetooth Classic connection and a rule that leaves interface and endpoints automatic |
| `Verdicts.AssociatedThroughout` | core/src/gc_config.c:1383-1404 | in every run rules and the profiles bound to them agree on their owners |
| `Verdicts.UnavailableIff` | core/src/gc_config.c:1612-1624 | so where an instance rule is in force and binds, PROFILE_UNAVAILABLE is returned if and only if no profile is bound, none has the bound id, or the first that has it is disabled or for another product or protocol: the owner is never the reason |
| `HidLayout.ParseDescriptor` | core/src/gc_hid.c:65-215 | the item loop accepts exactly what the definition accepts, and every layout it returns is sound |
| `HidLayout.ReadValue` | core/src/gc_hid.c:77-78 | little-endian payload |
| `HidLayout.AddControls` | core/src/gc_hid.c:141-206 | the loop over the controls of an Input item |
| `HidLayout.AddKeeps` | core/src/gc_hid.c:141-206 | a field added where the report's used part ends is apart from all others |
| `HidLayout.ApplyKeeps` | core/src/gc_hid.c:79-212 | every item keeps the parser sound, through push, pop and report changes |
| `HidLayout.AcceptedLayoutOk` | core/src/gc_hid.c:65-215 | every accepted layout has at most 96 claimed and 96 raw fields of 1 to 32 bits with a range, inside their reports and pairwise disjoint |
| `Descriptors.ItemsParse` | core/src/gc_hid.c:73-81 | the bytes of any short items, wherever they stand, are parsed as those items in their order |
| `Descriptors.SignedMeaning` | core/src/gc_hid.c:58-63 | a signed value is the two's complement of its one, two or four bytes |
| `Descriptors.PopRestores` | core/src/gc_hid.c:97-98 | what comes between a push and its pop leaves no trace on the global settings |
| `Descriptors.LocalsEnd` | core/src/gc_hid.c:211 | usages apply to the next main item and no further |
| `Descriptors.ReportsApart` | core/src/gc_hid.c:128-210 | an item of one report leaves the others' offsets where they were |
| `Descriptors.CollectionMeaning` | core/src/gc_hid.c:106-124 | which collections hold game controls, and that pointers, mice and keyboards are refused at the top |
| `Descriptors.UsageMeaning` | core/src/gc_hid.c:137-140 | the usage of each control: from the list, then from the range |
| `Descriptors.InputMeaning` | core/src/gc_hid.c:128-210 | the fields an Input item adds are exactly those of its supported controls, each at its place, with page, usage, size and range |
| `Descriptors.InputAccepted` | core/src/gc_hid.c:132-179 | which Input items are accepted |
| `Descriptors.ArrayInput` | core/src/gc_hid.c:142-145 | a button array adds one selector field per element |
| `Descriptors.RawControl` | core/src/gc_hid.c:162-177 | unclaimed variable controls become raw fields |
| `Descriptors.AcceptedAccurate` | core/src/gc_hid.c:200-206 | every accepted layout knows exactly which axes and analog triggers it has |
| `Descriptors.GamepadReads` | core/src/gc_hid.c:65-467 | from the descriptor's bytes to the pad: for a plain gamepad of any number of buttons, whatever the report and the pad, sticks, directions, buttons and triggers are the ones its bytes say |
| `HidInput.ReadRaw` | core/src/gc_hid.c:325-330 | the field's bits as a number, signed when its minimum is negative; it fits 32 bits |
| `HidInput.Survey` | core/src/gc_hid.c:295-320 | which buttons arrays cover and how hat and direction buttons combine |
| `HidInput.DecodeField` | core/src/gc_hid.c:321-452 | one field's effect on the pad |
| `HidInput.DecodeFields` | core/src/gc_hid.c:321-452 | the fields of the report applied in order |
| `HidInput.InputReport` | core/src/gc_hid.c:276-467 | the decoded pad for every report, inside its bytes and without division by zero; refused reports with claimed fields leave the pad alone |
| `HidInput.RefusedUnchanged` | core/src/gc_hid.c:286-294 | a report with claimed fields that is not understood changes nothing |
| `HidInput.ScaleShape` | core/src/gc_hid.c:392-401 | axis scaling is monotone, reaches 0 and 255, and maps the middle of a symmetric range to 128 |
| `HidInput.LastFieldDecides` | core/src/gc_hid.c:321-452 | the last field of a report that can move a part of the pad decides it |
| `HidInput.ButtonMeaning` | core/src/gc_hid.c:337-342 | a button is down exactly when its deciding field is nonzero and not null |
| `HidInput.StickMeaning` | core/src/gc_hid.c:360-438 | a stick axis is its deciding field scaled through its range, or centred on null |
| `HidMeaning.RawBit` | core/src/gc_hid.c:325-327 | bit k of a field is the report's bit at its offset plus k, low bit first in each byte |
| `Descriptors.RawLittleEndian` | core/src/gc_hid.c:325-327 | fields of whole bytes are little-endian |
| `HidMeaning.ValueRange` | core/src/gc_hid.c:328-330 | the range of a value, and its residue: signed exactly when the minimum is negative |
| `HidMeaning.ScaleNearest` | core/src/gc_hid.c:392-401 | a scaled value is nearest to its share of the range in 255 steps |
| `HidMeaning.HatMeaning` | core/src/gc_hid.c:13-34 | while the hat counts, a direction is down if and only if a hat of the report points to it: position p of eight is within 45 degrees of it, or p of four is it; null, out of range and any other number of positions point nowhere |
| `HidMeaning.DpadMeaning` | core/src/gc_hid.c:303-362 | while the direction buttons count, usages 0x90 to 0x93 are up, down, right and left, each down exactly if its last button is on and not null |
| `HidMeaning.ButtonNames` | core/src/gc_hid.c:6-11 | the first twelve buttons by name; all eighteen are different and none is a direction |
| `HidMeaning.ArrayMeaning` | core/src/gc_hid.c:36-56 | a button only arrays can press is down exactly if one selects it; one no array covers stays as it was |
| `HidMeaning.AxisTable` | core/src/gc_hid.c:363-450 | which part of the pad each axis moves, with and without a second stick |
| `HidMeaning.TriggerMeaning` | core/src/gc_hid.c:392-450 | an analog trigger is its deciding field scaled, and rests on null |
| `HidMeaning.SharedOut` | core/src/gc_hid.c:433-440 | one axis for both triggers pulls the left below the middle, the right above, each fully at its end, never both |
| `HidMeaning.CombinedMeaning` | core/src/gc_hid.c:433-440 | so the decoded triggers of such a layout share that axis out |
| `HidMeaning.DigitalMeaning` | core/src/gc_hid.c:455-465 | triggers without an analog control are full or rest with their buttons |
| `HidInput.DecodeTwice` | core/src/gc_hid.c:276-467 | decoding a report again changes nothing, whatever the pad held before |
| `HidInput.GuessInput` | core/src/gc_hid.c:226-274 | the positional fallback's loop |
| `HidInput.FallbackIff` | core/src/gc_hid.c:226-274 | the fallback understands a report exactly when it has a field there and the report holds them all |
| `HidInput.FallbackRefusalCanChange` | core/src/gc_hid.c:226-274 | a report cut short is refused by the fallback after it has pressed a button: a descriptor, the layout compiled from it, a report and the pad left |
| `HidInput.FallbackKeepsPadIff` | core/src/gc_hid.c:226-274 | a refusal by the fallback leaves every pad unchanged if and only if the report holds all its fields or none that acts comes before the first missing one |
| `HidMeaning.GuessMeaning` | core/src/gc_hid.c:226-274 | what the fallback takes each raw field for: the next button, a hat, the next axis or nothing |
| `HidState.ReadValues` | core/src/gc_hid.c:499-569 | the samples of a report in field order, or none |
| `HidState.ValuesOk` | core/src/gc_hid.c:499-569 | the samples of one report lie at different coordinates, all of them the layout's |
| `HidState.SamplesAre` | core/src/gc_hid.c:499-569 | a report has samples unless a field it should show cannot be read, and they are those of the fields it shows |
| `HidState.SampleMeaning` | core/src/gc_hid.c:499-569 | samples and decoded pads agree: a control is active exactly when it alone would press something |
| `HidState.RoomForNew` | core/src/gc_hid.c:597-600 | there is always room for a coordinate not yet stored |
| `HidState.HidState.Update` | core/src/gc_hid.c:582-606 | after any reports the state holds exactly the latest sample of each coordinate seen, once; the capacity check never fires |
| `Ipc.Kept` | core/src/gc_ipc.c:271-538 | every step of accept loop, workers, deferral and stop keeps ownership, slots and counts |
| `Ipc.OwnedClose` | core/src/gc_ipc.c:271-538 | the owner closes the connection it owns, once |
| `Ipc.SlotsOpen` | core/src/gc_ipc.c:689-694 | what a stop shuts down is open and is still that connection |
| `Ipc.RoomForHandler` | core/src/gc_ipc.c:486-506 | fewer than four counted requests leave a slot free |
| `Ipc.AdmittedFindsSlot` | core/src/gc_ipc.c:486-506 | so an admitted connection always finds one |
| `Ipc.NoMisuse` | core/src/gc_ipc.c:271-713 | in every interleaving no descriptor is closed twice, none is read, written or shut down by anyone who does not own it or after it was closed, and nobody uses the freed server |
| `Ipc.ExactlyOneOwner` | core/src/gc_ipc.c:271-538 | every accepted connection not yet closed has exactly one owner |
| `Ipc.FreedLast` | core/src/gc_ipc.c:683-713 | the server is freed only after the accept thread is gone and no worker is left; only deferred replies may outlive it |
| `Requests.Served` | core/src/gc_ipc.c:345-538 | in any state a run can reach in which the server listens and counts fewer than four requests, a new connection is served and closed, and everything else is as before |
| `Requests.Deferred` | core/src/gc_ipc.c:271-290 | a handler may hand its connection to a deferred reply, which has it, open, when the worker is gone |
| `Requests.ReplyCloses` | core/src/gc_ipc.c:292-343 | and closes it |
| `Requests.Stopped` | core/src/gc_ipc.c:683-713 | a stop that finds no request under way frees the server; one that finds some gives up and may be tried again |
| `Bluetooth.AuthorisedMeans` | core/src/gc_bt.c:139-232 | authority read off the callback log: an accepted ready with no later ready or loss |
| `Bluetooth.Kept` | core/src/gc_bt.c:139-457 | every host event, callback answer and API call keeps admission in step with the log |
| `Bluetooth.InputOnlyWhileReady` | core/src/gc_bt.c:184-216 | reports and states reach the core only between an accepted ready for that exact origin and its loss, replacement or rejection |
| `Bluetooth.OutputOnlyToItsPad` | core/src/gc_bt.c:449-457 | queued output is applied only to the occurrence it was queued for, while that is admitted |
| `Bluetooth.AdmissionIsLogged` | core/src/gc_bt.c:131-165 | between engine steps admission is exactly what the log authorises |
| `Bluetooth.ConnectionAnswered` | core/src/gc_bt.c:139-165 | a connection that is not stale is announced, and admitted exactly if the core accepts it |
| `Bluetooth.StaleIgnored` | core/src/gc_bt.c:139-165 | a stale one changes nothing |
| `Bluetooth.InputDelivered` | core/src/gc_bt.c:167-216 | input of the admitted pad reaches the core, once, also when its description has changed and is accepted again |
| `Bluetooth.OutputDelivered` | core/src/gc_bt.c:449-457 | output set for the admitted pad reaches it |
| `Bluetooth.LossTold` | core/src/gc_bt.c:218-232 | a loss withdraws the pad and is told, and nothing queued for it is kept |
| `AppPad.AppPad.constructor` | core/src/gc_app_pad.c:20-24 | the initial state |
| `AppPad.AppPad.Expire` | core/src/gc_app_pad.c:9-19 | what time alone ends |
| `AppPad.AppPad.Stop` | core/src/gc_app_pad.c:25 | a live event is cancelled |
| `AppPad.AppPad.Configure` | core/src/gc_app_pad.c:26-31 | settings and revision change together or not at all |
| `AppPad.AppPad.Schedule` | core/src/gc_app_pad.c:32-39 | a new pending event, refused while one is live |
| `AppPad.AppPad.Status` | core/src/gc_app_pad.c:40 | the aged state |
| `AppPad.AppPad.TakePoll` | core/src/gc_app_pad.c:41-61 | the next state and the reply, whose time to live never underflows; refused polls change nothing |
| `AppPad.AppPad.TakeAck` | core/src/gc_app_pad.c:62-78 | the next state, whose meaning the lemmas on ends give; refused acknowledgements change nothing |
| `AppPad.NextOk` | core/src/gc_app_pad.c:8-78 | every call keeps the state's invariant on a clock that does not run backwards |
| `AppPad.NeverRevives` | core/src/gc_app_pad.c:8-78 | ids never fall, and an event that is over stays over |
| `AppPad.ScheduledIsNew` | core/src/gc_app_pad.c:32-39 | an accepted schedule has a greater id than any before and follows an event that is over |
| `AppPad.DeliveredBy` | core/src/gc_app_pad.c:41-61 | a live delivered event was delivered to the session and generation that hold the lease now |
| `AppPad.StartedOnlyByAck` | core/src/gc_app_pad.c:62-78 | STARTED is reached only by an acknowledgement from the session and generation the event was handed to, less than 6500 ms after it was scheduled |
| `AppPad.NotLiveForLong` | core/src/gc_app_pad.c:9-19 | 18000 ms after scheduling time alone has ended an event |
| `AppPad.SeenNoLater` | core/src/gc_app_pad.c:8-61 | so no status, schedule or accepted poll that late finds it live |
| `AppPadEnds.EndedOnlyBy` | core/src/gc_app_pad.c:8-78 | over every run: COMPLETE was reached by an accepted phase 2 acknowledgement with codes 0, 0, 0, FAILED by phase 3, CANCELLED by phase 4, a stop, a lost lease or a moved session, EXPIRED by time |
| `AppPadEnds.AcknowledgedByReceiver` | core/src/gc_app_pad.c:62-78 | such an acknowledgement came from the session and generation the event was handed to |
| `AppPadEnds.AckTakesEffect` | core/src/gc_app_pad.c:62-78 | conversely, an accepted acknowledgement of phases 1 to 4 for a live event leaves STARTED, COMPLETE, FAILED or CANCELLED |
| `AppPadEnds.TimeEndsIff` | core/src/gc_app_pad.c:9-19 | time ends a live event exactly when the lease of one handed over is lost or the event is overdue |
| `AppPadEnds.SessionMoves` | core/src/gc_app_pad.c:41-50 | the pad changes hands only by a poll and after the lease; within a session the generation never falls |
| `AppPadEnds.MayPoll` | core/src/gc_app_pad.c:41-44 | the holder may always poll again, any other session once the lease is lost |
| `AppPadEnds.Performed` | core/src/gc_app_pad.c:32-78 | a scheduled event reaches the first poll with rumble whole, with the time it has left, and its acknowledgements start and complete it |
| `AppPadEnds.SettingsReach` | core/src/gc_app_pad.c:26-54 | new settings reach the next accepted poll under a revision of their own |
| `AppPadEnds.ToldNothing` | core/src/gc_app_pad.c:55-59 | an application that cannot rumble, or has no pad, is told only the state |
| `AppPadWire.ScanFields` | core/src/gc_app_pad.c:80-97 | the bounded scan reads exactly the declared fields |
| `AppPadWire.FieldsJoin` | core/src/gc_app_pad.c:80-97 | up to twenty numbers in range, negative ones where allowed, always fit the bound and read back as themselves |
| `AppPadWire.ReplyReads` | core/src/gc_app_pad.c:102-110 | every reply a poll can get is accepted by the parser and read as it was meant |
| `AppPadWire.WireOrder` | core/src/gc_app_pad.c:102-110 | the order of the twenty numbers, and the number of each state |
| `Patterns.MatchPatterns` | core/src/gc_profile.c:1083-1098 | the nested loops make the declared choice and record what it uses up |
| `Patterns.ChoiceUnique` | core/src/gc_profile.c:1083-1098 | the rule determines the choice |
| `Patterns.ChosenDisjoint` | core/src/gc_profile.c:1083-1098 | chosen patterns are fully pressed and pairwise disjoint |
| `Patterns.PassedOver` | core/src/gc_profile.c:1083-1098 | a pressed pattern that was not chosen overlaps a chosen one that is wider, or as wide with a lower number |
| `Patterns.ApplyButtons` | core/src/gc_profile.c:1074-1104 | the buttons that come out, bit by bit |
| `Patterns.AppliedUnique` | core/src/gc_profile.c:1074-1104 | they are determined by profile and input |
| `Patterns.ConsumedDoesNotLeak` | core/src/gc_profile.c:1099-1103 | the mapping of a used-up button has no influence |
| `ProfileMeaning.PatternActs` | core/src/gc_profile.c:1083-1104 | a pressed pattern that is wider than all pressed ones it overlaps gives its button, and the bits it uses up give nothing of their own |
| `ProfileMeaning.MappedOnly` | core/src/gc_profile.c:1099-1104 | without a pressed pattern each button gives its mapping, and unknown bits pass through |
| `Patterns.TriggerShape` | core/src/gc_profile.c:939-951 | a trigger reads zero exactly below its threshold or at rest, is full at full travel and monotone |
| `Patterns.BoundAxisShape` | core/src/gc_profile.c:973-1004 | a bound axis rests at its centre, reaches both ends and is monotone in its direction |
| `ProfileMeaning.TriggerShare` | core/src/gc_profile.c:939-951 | between threshold and full travel a trigger is its share of what is left, rounded down, but at least one |
| `ProfileMeaning.BoundShare` | core/src/gc_profile.c:973-1004 | between centre and end a bound axis is nearest to its share of the way |
| `ProfileMeaning.FeedMeaning` | core/src/gc_profile.c:1006-1030 | a bound axis follows its own source; only the two trigger axes rest at zero |
| `Patterns.ApplyAxisBindings` | core/src/gc_profile.c:1006-1030 | every bound axis is computed from the values before any was written, the others stay |
| `Sticks.ApplyStick` | core/src/gc_profile.c:1031-1054 | both axes of a stick from its distance, dead zone, sensitivity and inversion |
| `Sticks.NeutralKeeps` | core/src/gc_profile.c:1031-1054 | with neutral settings a stick within the unit circle stays exactly where it is |
| `Sticks.KeepsDirection` | core/src/gc_profile.c:1047-1053 | outside the dead zone the direction is kept, the distance becomes the travel, at most one, and no axis is cut off |
| `Sticks.AloneShape` | core/src/gc_profile.c:1031-1054 | an axis moved alone is monotone, rests in the dead zone and reaches both ends from sensitivity one on |
| `Sticks.InvertTwice` | core/src/gc_profile.c:1035-1053 | inverting twice gives every position back but 64 |
| `Patterns.ApplyProfile` | core/src/gc_profile.c:1056-1112 | a disabled profile changes nothing; otherwise axes are bound first and scaled triggers drive their buttons before patterns and mappings, and sticks are bent last |
| `ProfileMeaning.TriggersMeaning` | core/src/gc_profile.c:1056-1081 | each trigger answers to its own threshold, in its axis and in its button: down when pulled far enough, or when it was down and has no threshold; all other buttons stay |
| `ProfileMeaning.SticksApart` | core/src/gc_profile.c:1105-1112 | each stick is bent by its own settings, whatever the other's are |
| `ProfileMeaning.AlongOneAxis` | core/src/gc_profile.c:1031-1054 | each axis of a stick follows its own inversion |
| `Install.Folders.MoveReplaced` | core/src/gc_install.c:366-383 | the first phase moves aside exactly the children that are replaced, or stops with those moved so far |
| `Install.Folders.PlaceIncoming` | core/src/gc_install.c:384-393 | the second phase places the staged children without overwriting any |
| `Install.Folders.UnplaceAll` | core/src/gc_install.c:396-400 | undo of the second phase |
| `Install.Folders.MoveAllBack` | core/src/gc_install.c:401-405 | undo of the first phase |
| `Install.Folders.Swap` | core/src/gc_install.c:347-406 | success leaves old children not replaced plus all staged ones, each as it was, and the replaced ones aside; failure with successful undo leaves target and staged as they were; no old child is ever lost; it succeeds if nothing is refused and both listings fit, and a single refusal is undone |

## Left out

- QrEncoder.EncodePayload: takes the penalty score as a parameter; how the score is computed is left out.
- QrCodec.RoundTrip: is the agreement of this encoder with this decoder; versions 7 to 10 reserve no version information (section 7.10 of ISO/IEC 18004:2015), so full conformance is not claimed.
- QR images, quiet zones, the final UTF-8 decoding of the payload, and the other asset tools.
- SeqLock.AcceptedIsOnePublication: assumes that sequence and epoch advance fewer than 2^32-2 times during one read, that a failed publication is followed by a removal as the bridge does, and sequentially consistent memory; the game's exit, which resets the bridge, is not a step.
- Import hooks, symbol resolution, remote memory and process discovery around the publication.
- ConfigStore.ConfigStore.AtomicWrite: temporary files are not on the modelled disk, so one left behind when its removal fails is not seen.
- ConfigStore.ConfigStore.ReloadLocked: runtime and profile texts are read by unspecified functions; only the rules' file is modelled to the character.
- ConfigStore.ConfigStore.Replace: is written once here, for the four places that snapshot, write, reload and restore one file.
- Creation of the default files and directories, import and export of profiles, path length limits, error texts, invalidation callbacks and the setup guard's callbacks (an acquisition may fail, and no more).
- Locks of the store: every operation runs with the writer lock held, and readers see whole publications.
- Selection of profiles outside the resolver, whose ties are broken differently from the resolver's.
- Sticks.ApplyStick: computes in exact arithmetic where the program uses single precision; the square root is a parameter.
- Binding of HID fields to profile targets, motion and touch, and the fixed parsers of single devices.
- Ipc.NoMisuse: assumes that locks and closes do not fail and that one thread at a time calls stop; request parsing and the token are not modelled.
- Bluetooth.InputOnlyWhileReady: models one slot; the others share only the lock, the engine thread and the transport, whose loss may come at any send. Opening, closing and retrying the radio, pairing and status are left out.
- AppPad.AppPad.TakePoll: boot and session numbers are unbounded here; the wire lemmas bound them to 64 bits.
- Install.Folders.Swap: says that the backup is exactly the replaced children only when the old backup could be removed first; when that fails the program goes on, and older entries may remain beside them.
- Downloading, unpacking and arming an update, notifications, deployment scripts and art.
