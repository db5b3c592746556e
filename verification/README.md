# stark firmware: the logic behind its drivers, verified

A Dafny model of the platform-free logic of the firmware: code that works over injected I/O, clocks and locks. Each
module names the component it models. Code that changes state in place is a class or a method with loops, proved
against a specification function or relation; what the code is for is then proved about that specification, over all
inputs, whole runs, or every interleaving.

| part | files | what is proved at the top |
|---|---|---|
| NFC Type 2 and NDEF | `NfcType2`, `NfcTag`, `Ndef`, `NdefTypes` | written, then read, gives the same message; no write outside the data area; parse and encode are inverse both ways |
| Drawing | `GfxTypes`, `Gfx`, `Display`, `Damage`, `DamageRuns` | banded drawing equals drawing once; the damage set stays apart, is a least closure, and covers exactly while its boxes fit |
| Modules | `ModuleDesc`, `ModuleCore`, `ModuleRuns` | no burst of 16 bits passes the checksum; leases, conflicts, capabilities and every change of an entry under every interleaving |
| Storage | `StorageCore`, `StoragePath`, `StorageVolume`, `StorageFiles`, `Storage`, `StorageRuns` | over any interleaving every descriptor is closed exactly once and every atomic write lands whole or not at all |
| Events | `EventCore`, `EventBus` | delivery of exactly the old events in order; no lost wakeup |
| Infrared | `IrTiming`, `IrBits`, `IrPulse`, `IrNec`, `IrSirc`, `IrBiphase`, `IrRc5`, `IrRc6`, `IrRc6Exact`, `IrSymbols`, `IrCodec`, `IrTolerance`, `IrRaw` | full loopback, the exact tolerance of each decoder and of the dispatcher, file round trip |
| Keys | `InputCore`, `InputRuns` | the grammar of the action trace; when keys press, release and repeat |

`Stark` holds the error codes, integer ranges and small helpers the others share.

## How the model works

- I/O, clocks and other tasks are nondeterministic: a tag exchange, a file-system call, an I2C answer or the time may
  be anything the contract of its method allows. Failed calls are as destructive as their contract says (a failed write
  may leave its file or page with any content).
- Concurrency is a state machine whose steps are the locked sections. In classes, a method called `Others`,
  `Producers` or `AnySection` stands for what other tasks do while the lock is free.
- Fixed-width counters are ranges with explicit wrap (`uint32`, `Add32`, `Sub32`, `Low32`). Where a guarantee needs
  fewer than 2^32 of something, the clause says so.
- Bit masks are sets of bit numbers, and words in the infrared codecs are numbers with their bits as lists.
- Ghost state (`log`, `trace`, `samples`, `marks`, `writes`, tickets) records histories that the firmware does not keep,
  so that statements about whole runs can be made.

## Where code and documentation disagree

The model follows the code.

- `components/stark_nfc/nfc_writer.h:6-9` promises writes only inside the data area. The page number is one byte, so
  this holds for messages of at most 1003 bytes and for no longer ones (`PageNumberWraps`); the public entry point
  admits 872.
- `components/stark_ui/ui_damage.c:17-23` clamps a width to 32767, so an addition keeps every pixel exactly when the box
  it stores fits (`CoverageExactlyWhenItFits`); two additions 32777 pixels wide together lose some
  (`WideUnionLosesPixels`).
- `components/stark_storage/include/stark_storage.h:103` says an atomic write keeps the old file until close succeeds. After
  the old file is unlinked a rename that fails with a non-I/O error also drops the new copy (`BothCopiesLost`), and two
  handles on one name share its temporary file: a close that answers OK installs what that file holds by then
  (`InstallsOwnExactly`), which need not be what its own handle wrote (`SharedTmpIsNotWhole`,
  `SharedTmpHappens`).
- `components/stark_ir/include/ir_codec.h:11-12` states 25 % for every decoder. RC6 keeps it exactly while its pulses are read
  as their own numbers of units, by the nominal unit or, unless it looks like its twin, by one the leader agrees on
  (`FullToleranceExactly`, `FullToleranceFails`). The dispatcher keeps it for NEC; for RC5 exactly unless the timings are a SIRC12 frame too
  (`Rc5TolerantExactly`), for SIRC exactly unless they are an RC6 frame too (`SircTolerantExactly`). It keeps 15 % for
  RC5 and RC6 and 11 % for every protocol (`Tolerates`); RC5 at 16 % and SIRC at 12 % have counterexamples
  (`Rc5LooksLikeSirc`, `SircLooksLikeRc6`).
- `components/stark_ir/include/ir_raw.h:28-29` rejects a file whose first line is not the header. The parser skips lines
  without a word first: in an accepted file the first line is the header exactly when it has a word on it
  (`HeaderIsFirstWord`), and every file is accepted behind a comment (`CommentFirst`).
- `components/stark_input/include/input_core.h:7` says there are no chords, and then describes the one there is.

## Model

| member | source | states |
|---|---|---|
| `NfcType2.FindTlv` | components/stark_nfc/nfc_type2.c:31-79 | The imperative walk over the bytes read so far answers exactly what the specification walk of that prefix does, for every buffer and length. |
| `NfcType2.LazyWalkRefines` | components/stark_nfc/nfc_type2.c:31-79 | On any prefix of a data area the walk either gives the answer of the whole area, or asks for more with available < need <= total. |
| `NfcType2.WalkIffLayout` | components/stark_nfc/nfc_type2.c:31-79 | The walk answers r if and only if the area is a list of well-formed skippable blocks followed by a tail whose first block settles r: an independent grammar of the data area. |
| `NfcType2.WalkHasLayout` | components/stark_nfc/nfc_type2.c:31-79 | Every area has such a layout, and its tail settles what the walk answers. |
| `NfcType2.LayoutDecidesWalk` | components/stark_nfc/nfc_type2.c:31-79 | Whatever layout an area is given, the walk answers what its tail settles. |
| `NfcType2.TlvPage` | components/stark_nfc/nfc_type2.c:109-114 | Fills exactly four bytes of the output with the page of the padded TLV, and nothing else. |
| `NfcType2.TlvByteIsImage` | components/stark_nfc/nfc_type2.c:81-107 | The bytes computed one at a time are those of the stored image: header, message, terminator, zero padding to whole pages, of the announced size. |
| `NfcType2.ImageIsFound` | components/stark_nfc/nfc_type2.c:31-107 | A data area that starts with the stored image of a message is walked to exactly that message, for every length up to 65534. |
| `NfcType2.CapacityIsWhatFits` | components/stark_nfc/nfc_type2.c:23-88 | The capacity the reader reports is exactly the largest message whose padded TLV the writer accepts, for every data area a CC can declare. |
| `NfcTag.Tag.Exchange` | components/stark_nfc/nfc_reader.c:49-69 | The tag as the far end of an exchange: any call may fail; a full READ answer is the memory; a WRITE, acknowledged or not, may leave anything in the one page it names and touches no other. |
| `NfcTag.Tag.Reselect` | components/stark_nfc/nfc_reader.c:35-47 | OK only when the tag in the field has the expected UID. |
| `NfcTag.Tag.Read4` | components/stark_nfc/nfc_reader.c:81-87 | OK exactly when nothing failed, with the sixteen bytes from that page; memory unchanged. |
| `NfcTag.Fill` | components/stark_nfc/nfc_reader.c:90-100 | Terminates; on OK the buffer holds the first avail bytes of the data area, at least those wanted; memory unchanged. |
| `NfcTag.ReadTlv` | components/stark_nfc/nfc_reader.c:103-144 | The walk over a growing prefix, interleaved with reading, terminates and reports what walking the whole data area at once would. |
| `NfcTag.ReadType2` | components/stark_nfc/nfc_reader.c:103-144 | A fault-free read reports exactly what the whole memory holds: not formatted, too big, corrupt, empty, or the message, with the CC's write access and capacity. |
| `NfcTag.ReadTag` | components/stark_nfc/nfc_reader.c:146-175 | The same after GET_VERSION; on any error nothing is reported and the buffer is zero; the tag is never written. |
| `NfcTag.WriteMessage` | components/stark_nfc/nfc_writer.c:18-59 | On every path, failing ones included, only the confirmed, writable, large enough tag is written, and only pages from 4 up to the end of the CC's data area; on OK the tag holds the message and reads back as exactly it. |
| `NfcTag.WritePages` | components/stark_nfc/nfc_writer.c:32-38 | Writes a prefix of the TLV's pages in order and nothing else; the first four pages never change (messages up to 1003 bytes). |
| `NfcTag.ReadBack` | components/stark_nfc/nfc_writer.c:39-48 | OK means every byte of the TLV is in the tag's memory, not merely sent. |
| `NfcTag.WritesStayInArea` | components/stark_nfc/nfc_writer.c:28-38 | Page numbers written for a TLV that fits the data area lie inside it. |
| `NfcTag.PageNumberWraps` | components/stark_nfc/nfc_writer.c:33 | The one-byte page number stays at or above page 4 for every page if and only if the message is at most 1003 bytes long. |
| `NfcTag.StoredReadsBack` | components/stark_nfc/nfc_writer.c:18-50 | A tag whose memory holds the stored image of a message is read as exactly that message. |
| `Ndef.ReadHead` | components/stark_nfc/ndef.c:83-117 | The loop over header and length bytes reads the record head the specification function describes, with the same errors. |
| `Ndef.Parse` | components/stark_nfc/ndef.c:76-139 | The record loop gives the records or the error of the specification parser on every buffer. |
| `Ndef.Encode` | components/stark_nfc/ndef.c:149-189 | Writes exactly the encoded message, or returns 0 when a record is invalid or the buffer too small. |
| `Ndef.FlagsRoundTrip` | components/stark_nfc/ndef.c:83-117 | Header byte and flags determine each other. |
| `Ndef.EncodeThenParse` | components/stark_nfc/ndef.c:64-189 | Parsing what was encoded gives exactly the same 1 to 8 records, for every list of encodable records. |
| `Ndef.AcceptedViews` | components/stark_nfc/ndef.c:76-139 | In every accepted buffer the views lie in order inside it, and every record they show can be encoded again. |
| `Ndef.InOrderDisjoint` | components/stark_nfc/ndef.c:76-139 | Views in order do not overlap: type, ID and payload of one record end before the next begins. |
| `Ndef.ReencodeFrom` | components/stark_nfc/ndef.c:76-189 | From any record on, re-encoding takes no more bytes than the buffer had, and as many exactly when the rest was in the encoder's form. |
| `Ndef.ParseThenEncode` | components/stark_nfc/ndef.c:76-189 | Every accepted buffer re-encodes to at most as many bytes, which parse to the same records; to the same bytes if and only if it was in canonical form. |
| `NdefTypes.UriMake` | components/stark_nfc/ndef.c:226-252 | The record made splits the URI at the longest matching prefix of the table; it is refused only when empty or when no split fits. |
| `NdefTypes.UriReadsBack` | components/stark_nfc/ndef.c:197-224 | Whatever code a URI was split at, reading gives the URI back; only a buffer too small for it and its terminator is refused. |
| `NdefTypes.UriGetIsSplit` | components/stark_nfc/ndef.c:213-224 | A URI that can be read is a C string that fits, split at the code the record names. |
| `NdefTypes.TextRoundTrip` | components/stark_nfc/ndef.c:254-298 | A text record reads back as the language and text it was made from. |
| `NdefTypes.TextGetThenMake` | components/stark_nfc/ndef.c:254-298 | A text record that can be read is exactly what making one from what was read gives. |
| `NdefTypes.MadeRecordsTravel` | components/stark_nfc/ndef.c:20-298 | One to eight URIs and texts made into records, encoded as a message, parsed and read come back exactly as they were given; a URI too long for the reader's buffer is refused. |
| `Damage.DamageSet.Add` | components/stark_ui/ui_damage.c:83-123 | One addition to the array-backed set is a step of the relation Added: absorb what joins, store if there is room, else merge the cheapest pair. |
| `Damage.DamageSet.Remove` | components/stark_ui/ui_damage.c:57-63 | Removes exactly the named rectangle, keeping the order of the others. |
| `Damage.DamageSet.AbsorbInto` | components/stark_ui/ui_damage.c:67-81 | The restart loop ends with the box and the remaining rectangles of the specification function. |
| `Damage.DamageSet.MergeCheapest` | components/stark_ui/ui_damage.c:95-122 | When the set is full it merges a pair of least growth among the stored rectangles and the new one and keeps the rest. |
| `Damage.CheapestPair` | components/stark_ui/ui_damage.c:98-112 | The double loop finds the pair of least growth, the first such in order. |
| `Damage.CheapestIsUnique` | components/stark_ui/ui_damage.c:98-112 | That choice is unique. |
| `Damage.GrowthFits` | components/stark_ui/ui_damage.c:100-110 | The growth of any pair stays below the loop's 64-bit start value, so a pair is always chosen. |
| `Damage.AbsorbSettles` | components/stark_ui/ui_damage.c:67-81 | After absorbing, nothing left joins the grown box, what is left was there before, and every rectangle is left or inside the box. |
| `Damage.AddKeepsTidy` | components/stark_ui/ui_damage.c:83-123 | Adding keeps at most four non-empty rectangles, no two overlapping or sharing an edge, and covers every pixel of the set and of the addition, inside a hull of at most 32767 pixels each way. |
| `Damage.MergeKeepsTidy` | components/stark_ui/ui_damage.c:95-122 | So does the overflow merge, followed by absorbing what the merged box now joins. |
| `DamageRuns.RunStaysTidy` | components/stark_ui/ui_damage.c:83-123 | Over any run of additions that together span at most 32767 pixels each way, at every point: at most four rectangles, pairwise apart, covering every pixel ever added. |
| `DamageRuns.TidyDrawsOnce` | components/stark_ui/ui_damage.c:38-45 | No pixel lies in two rectangles of a tidy set, so none is drawn twice. |
| `DamageRuns.AbsorbIsLeast` | components/stark_ui/ui_damage.c:67-81 | Absorbing stays inside every set of pairwise apart boxes that holds what went in. |
| `DamageRuns.RunIsLeastClosure` | components/stark_ui/ui_damage.c:67-97 | Until the first overflow the set is the least pairwise apart set of boxes that holds everything added. |
| `DamageRuns.LeastClosureIsUnique` | components/stark_ui/ui_damage.c:67-97 | That closure is unique. |
| `DamageRuns.OrderDoesNotMatter` | components/stark_ui/ui_damage.c:67-97 | Hence the final set does not depend on the order or repetition of the additions. |
| `DamageRuns.CoverageExactlyWhenItFits` | components/stark_ui/ui_damage.c:17-123 | For any set and addition, full or not: every pixel is kept if and only if the box stored, grown or merged, is at most 32767 pixels each way; and the set stays at most four, pairwise apart. |
| `DamageRuns.StoresOne` | components/stark_ui/ui_damage.c:83-123 | The box an addition stores is determined by the set and the addition. |
| `DamageRuns.RunStaysSparse` | components/stark_ui/ui_damage.c:83-123 | However wide the additions, at every point of any run: at most four rectangles, no two overlapping or sharing an edge. |
| `DamageRuns.WideUnionLosesPixels` | components/stark_ui/ui_damage.c:17-23 | A run of two additions whose union is 32777 pixels wide, and a pixel it loses. |
| `Gfx.Surface.ClipSpan` | components/stark_gfx/gfx_surface.c:34-54 | The span is exactly the pixels of the rectangle that are visible through the clip and the buffer; none when there is none. |
| `Gfx.Surface.Fill32` | components/stark_gfx/gfx_draw.c:13-25 | The nested loops colour exactly the visible pixels of the rectangle, and leave every other cell of the buffer. |
| `Gfx.Surface.DrawOutline` | components/stark_gfx/gfx_draw.c:42-58 | Top, bottom and sides together colour exactly the outline's visible pixels, for every degenerate size. |
| `Gfx.Surface.DrawBlit` | components/stark_gfx/gfx_draw.c:60-85 | Every visible pixel of the bitmap gets the foreground, the background or nothing as its bit says, whatever part of it is clipped. |
| `Gfx.Surface.Draw` | components/stark_gfx/gfx_draw.c:27-85 | Any primitive changes exactly the visible pixels it inks, to its ink. |
| `Gfx.Surface.DrawAll` | components/stark_gfx/gfx_draw.c:13-85 | A list of acts, nested narrowings of the clip included, leaves at every visible pixel the shade the list gives it over its old value, every other pixel as it was, and the clip as it was. |
| `Gfx.Surface.DrawScope` | components/stark_ui/ui_stack.c:236-245 | Drawing with the clip narrowed to a rectangle draws only inside it, nothing when nothing is left, and restores the clip. |
| `Gfx.Intersect` | components/stark_ui/ui_stack.c:57-71 | A pixel lies in the intersection if and only if it lies in both rectangles. |
| `Gfx.BitmapInside` | components/stark_gfx/gfx_draw.c:60-85 | Every bit read lies inside the bitmap's rows of whole bytes. |
| `Gfx.PaintedForgets` | components/stark_gfx/gfx_draw.c:13-85 | A pixel some act paints ends up the same whatever it held before; any other keeps what it held. |
| `Display.Bands` | components/stark_display/display_bands.c:16-45 | The loop lists bands that tile the clipped area from its first row on, all of it when the output has room. |
| `Display.BandsPartition` | components/stark_display/display_bands.c:16-45 | The bands partition the clipped area: every pixel of it is in exactly one band and no band has a pixel outside it. |
| `Display.EnoughBands` | components/stark_display/display_render.c:47-51 | The number of bands the renderer makes room for always suffices for a full screen. |
| `Display.BandsFit` | components/stark_display/display_render.c:43-95 | Every band fits a buffer of one full-width band. |
| `Display.ToPanelOrder` | components/stark_display/display_render.c:25-30 | Swaps the bytes of exactly the first n pixels. |
| `Display.Panel.WaitOne` | components/stark_display/display_render.c:32-35 | A finished transfer is the oldest one, and the panel shows the buffer as it is then: a buffer reused too early would show. |
| `Display.RenderBand` | components/stark_display/display_render.c:60-68 | The buffer holds, in panel order, what drawing the list on the band's surface gives. |
| `Display.Submit` | components/stark_display/display_render.c:52-80 | The next band is drawn into the buffer no transfer holds, and joins the queue. |
| `Display.RenderBands` | components/stark_display/display_render.c:52-90 | Whatever fails, the bands that came back are shown complete and in order, and nothing else has changed; on OK all have. |
| `Display.Render` | components/stark_display/display_render.c:43-95 | On every path nothing outside the clipped area changes; on OK every pixel of it shows the whole drawing and no transfer is left. |
| `Display.ShownInArea` | components/stark_display/display_render.c:52-80 | What the shown bands amount to on the whole screen, inside and outside the area. |
| `Display.BandedIsWhole` | components/stark_display/display_render.c:52-80 | A pixel shows, drawn band by band and whatever the band buffer held, what the same acts leave on a surface as large as the screen, if and only if some act paints it. |
| `Display.DrawBoth` | components/stark_display/display_render.c:60-68 | Drawn into a band and into a larger surface, the same acts leave equal colours at every pixel visible in both that started equal, painted or not. |
| `ModuleDesc.MixByte` | components/stark_module/module_desc.c:19-23 | XOR-ing a byte into the top and shifting eight times is feeding its bits, most significant first, to the shift register of CRC-16/CCITT-FALSE. |
| `ModuleDesc.ByteAtOnce` | components/stark_module/module_desc.c:19-23 | The same on bit lists, at every intermediate shift. |
| `ModuleDesc.Crc16` | components/stark_module/module_desc.c:15-26 | The loop computes the register of the whole message, starting from all ones. |
| `ModuleDesc.RegisterIsLinear` | components/stark_module/module_desc.c:15-26 | The registers of two messages differ by the register of their difference, bit by bit. |
| `ModuleDesc.BurstBackwards` | components/stark_module/module_desc.c:15-26 | Run backwards from zero, the register shows the last sixteen bits of the difference. |
| `ModuleDesc.BurstShows` | components/stark_module/module_desc.c:15-26 | A difference within sixteen consecutive bits that leaves the register zero is no difference. |
| `ModuleDesc.BurstChangesCrc` | components/stark_module/module_desc.c:15-26 | Two different messages of one length that differ only within sixteen consecutive bits have different checksums. |
| `ModuleDesc.IsBlank` | components/stark_module/module_desc.c:28-36 | True exactly for an all-ones image. |
| `ModuleDesc.CheckName` | components/stark_module/module_desc.c:39-54 | True exactly for a non-empty printable name followed only by zeros. |
| `ModuleDesc.Parse` | components/stark_module/module_desc.c:56-85 | The same verdict, reason and fields as the specification parser, on every image. |
| `ModuleDesc.BurstIsRejected` | components/stark_module/module_desc.c:15-85 | Any non-zero change confined to sixteen consecutive bits of the body of an accepted descriptor is rejected. |
| `ModuleCore.NextKeepsInv` | components/stark_module/module_core.c:78-309 | Every locked section keeps the invariant: owned slots are KNOWN and their descriptor and wiring cover the claimed lines; effective capabilities are among those confirmed; unless a change is pending, conflicts and capabilities are exactly settled. |
| `ModuleCore.RunKeepsInv` | components/stark_module/module_core.c:78-309 | So it holds at every lock boundary of every interleaving of a polling round with confirms, claims and releases. |
| `ModuleCore.RecomputeSettles` | components/stark_module/module_core.c:86-123 | After a recomputation a valid slot is CONFLICT if and only if another valid slot clashes with it, and the effective capabilities are exactly confirmed, known, not withheld and not wiring. |
| `ModuleCore.RunFollows` | components/stark_module/module_core.c:78-309 | Between any two points of a run a slot's wiring is the same, its revocations only grow, and without a revocation its owner and lines are unchanged. |
| `ModuleCore.LeaseValidity` | components/stark_module/module_core.c:264-309 | A lease given out earlier is valid if and only if its slot is owned and was revoked a multiple of 2^32 times since; below 2^32 revocations, exactly until the first. |
| `ModuleCore.StaleStaysStale` | components/stark_module/module_core.c:264-309 | A lease once stale never becomes valid again (fewer than 2^32 revocations). |
| `ModuleCore.OneLeasePerSlot` | components/stark_module/module_core.c:264-309 | Of two leases ever given out for a slot at most one is valid at a time (fewer than 2^32 revocations). |
| `ModuleCore.Modules.ResolveConflicts` | components/stark_module/module_core.c:86-113 | The in-place double loop, which marks and revokes as it goes, leaves every slot as judging it against all others of the original table would, and returns the capability withheld exactly when some pair clashes. |
| `ModuleCore.Modules.Recalculate` | components/stark_module/module_core.c:116-123 | Recomputes marks and effective capabilities, and reports a change exactly when there is one. |
| `ModuleCore.ApplyTo` | components/stark_module/module_core.c:139-178 | The branches over misses, read errors, stability and acceptance make the step of the specification of one slot's poll, whose meaning over a run EntryChangesExactly gives. |
| `ModuleCore.Modules.PollSlot` | components/stark_module/module_core.c:191-197 | One locked section of the round is one step of the machine; an entry that changed has its leases revoked. |
| `ModuleCore.Modules.EndRound` | components/stark_module/module_core.c:198-203 | The final section recomputes exactly when the round changed something. |
| `ModuleCore.Modules.ConfirmCaps` | components/stark_module/module_core.c:206-217 | Confirming or withdrawing is one step, and reports a change exactly when the effective capabilities changed. |
| `ModuleCore.Modules.ClaimLines` | components/stark_module/module_core.c:273-299 | The error for every argument and state; a lease given out is valid at once. |
| `ModuleCore.Modules.ReleaseLease` | components/stark_module/module_core.c:301-309 | A valid lease is revoked; a stale one changes nothing. |
| `ModuleCore.Modules.LeasePins` | components/stark_module/module_core.c:319-335 | Pins only for a valid lease, only those of the lines it claimed, and those are wired. |
| `ModuleCore.Modules.Tick` | components/stark_module/module_core.c:180-204 | With any interference at every lock boundary a round polls each slot once, in order, and ends settled. |
| `ModuleRuns.EntryChangesExactly` | components/stark_module/module_core.c:139-204 | In every interleaving an entry changes only by a poll of its slot, and then exactly so: a module vanishes after two polls in a row that found nobody, an empty slot becomes generic after three in a row that could not be read, a new descriptor is taken over after two equal reads in a row; each revokes the lease. |
| `ModuleRuns.RunRemembers` | components/stark_module/module_core.c:139-178 | At every step a slot's counters and hash say how the history of its polls ends. |
| `StorageCore.WaitIsExact` | components/stark_storage/storage_core.c:6-166 | Sleeping for the announced time wakes exactly when the periodic action falls due, counter wrap included, and it stays due for 2^31 - 1 ms. |
| `StorageCore.NextWait` | components/stark_storage/storage_core.c:11-166 | After a due tick the next wait is the full interval if and only if the interval is at most 2^31 ms. |
| `StorageCore.LeavingMounted` | components/stark_storage/storage_core.c:19-155 | For every input in every state: a new generation begins exactly with an unmount, a change is reported exactly when the announced state changes, and MOUNTED is left exactly with an unmount if and only if the input is no stray result (a failed mount while mounted, a failed probe while not). |
| `StorageCore.Core.Step` | components/stark_storage/storage_core.c:128-155 | Every input in every state makes the step of the transition function, handlers included. |
| `StorageCore.Core.Wait` | components/stark_storage/storage_core.c:157-166 | The wait of the transition system. |
| `StoragePath.FinalIsNotTmp` | components/stark_storage/storage_path.c:17-57 | A path built for a valid name is never a temporary name, and its temporary name is that path and ".tmp". |
| `StoragePath.PathsAreDistinct` | components/stark_storage/storage_path.c:12-57 | Equal paths mean the same file of the same directory. |
| `StorageVolume.Volume.OpenFile` | components/stark_storage/storage_io.h:21 | A new descriptor and a new ticket, the file created or emptied as the mode says, or a failure that may leave that one file with anything. |
| `StorageVolume.Volume.WriteFile` | components/stark_storage/storage_io.h:23 | Some of the bytes arrive at the descriptor's position, possibly none, or the call fails and may spoil the file. |
| `StorageVolume.Volume.CloseFile` | components/stark_storage/storage_io.h:25 | The descriptor is gone even when the call fails, and its ticket is closed once more. |
| `StorageVolume.PutPut` | components/stark_storage/storage_file.c:217-227 | Writing on where the last write ended is writing both at once. |
| `StorageFiles.Files.Open` | components/stark_storage/storage_file.c:144-181 | The error for every case; on OK a free slot holds a live handle of the mounted generation on a new descriptor at position 0; only the file opened can change, emptied or created as its mode says; a shared temporary name is noticed on both sides, and no other mark, handle or descriptor changes. |
| `StorageFiles.Files.Read` | components/stark_storage/storage_file.c:183-204 | Reads on at the handle's position, at most len bytes, of the file's actual content; every error case. |
| `StorageFiles.Files.Write` | components/stark_storage/storage_file.c:206-230 | OK means all bytes are in the file at the position the handle had, whatever short writes it took; failing or not, only the handle's own file, descriptor and mark can change. |
| `StorageFiles.Files.WriteAll` | components/stark_storage/storage_file.c:217-227 | The loop over short writes terminates and amounts to one write; a zero-byte write ends it with no space. |
| `StorageFiles.Files.Close` | components/stark_storage/storage_file.c:232-264 | Frees the slot in every case but an invalid handle; a live descriptor is closed exactly once; only the final name and the handle's own file can change; OK installs exactly what the temporary file held; a complete, unshared write held the concatenation of the writes, and every call leaves the final name whole, missing only once one of the calls logged has unlinked it. |
| `StorageFiles.Files.Commit` | components/stark_storage/storage_file.c:240-259 | The calls made and their order, failing ones included, are those of Replace on the answers the file system gave. |
| `StorageFiles.ReplaceIsWhole` | components/stark_storage/storage_file.c:240-261 | After any prefix of the calls, whatever they answer, the final name holds the complete old file, the complete new bytes, or nothing, and nothing only once the unlink was done or if it never existed; on an error never the new bytes; no other file changes. |
| `StorageFiles.ReplaceInstalls` | components/stark_storage/storage_file.c:240-261 | OK exactly when every needed call succeeded; then the final name holds the new bytes and no temporary file is left. |
| `StorageFiles.BothCopiesLost` | components/stark_storage/storage_file.c:251-261 | Old and new copy are both gone afterwards if and only if the unlink was done, the rename failed with something other than an I/O error, and the temporary copy was dropped. |
| `StorageFiles.SharedTmpIsNotWhole` | components/stark_storage/storage_file.c:144-264 | Open, write, open the same name again, close the first: when all four answer OK, the final name holds neither the old file nor what was written but an empty file. |
| `StorageFiles.SharedTmpHappens` | components/stark_storage/storage_file.c:144-264 | And all four can answer OK: on any disk that holds a non-empty old file, with every call done, for every name and non-empty write. |
| `StorageFiles.InstallsOwnExactly` | components/stark_storage/storage_file.c:240-261 | For all answers, a close that returns OK installs the handle's own bytes if and only if the temporary file still held them. |
| `StorageFiles.Files.Discard` | components/stark_storage/storage_file.c:266-280 | A live handle's descriptor is closed once and only its own file can change; a stale one only frees its slot. |
| `StorageFiles.Files.Remove` | components/stark_storage/storage_file.c:282-296 | Removes that file or nothing; open handles, atomic ones included, are unaffected. |
| `StorageFiles.Files.Rename` | components/stark_storage/storage_file.c:298-314 | Moves that file or nothing; open handles are unaffected. |
| `StorageFiles.Files.Invalidate` | components/stark_storage/storage_file.c:123-131 | Every open descriptor is closed, each once, and every used handle is stale; the slots stay with their owners. |
| `StorageFiles.Files.OpenCount` | components/stark_storage/storage_file.c:133-140 | Counts the used slots, stale ones included. |
| `StorageFiles.Files.Prepare` | components/stark_storage/storage_file.c:78-121 | After a mount only temporary files can vanish; every file under a final name stays as it is. It runs only when no handle is live, so no write in progress is swept. |
| `Storage.Service.Run` | components/stark_storage/stark_storage.c:126-155 | The loop over follow-up actions terminates; handles go stale and descriptors are closed exactly when MOUNTED is left; the card is mounted and unmounted only with no descriptor open; the last state announced is the state; an ejected card is never mounted unasked. |
| `Storage.Service.FollowUp` | components/stark_storage/stark_storage.c:134-145 | Each follow-up action fits the state it is carried out in, and its result leads to nothing more or to an unmount. |
| `Storage.Service.Eject` | components/stark_storage/stark_storage.c:180-188 | Refused exactly when mounted with a handle in use, and then nothing changes; when not refused no handle goes stale. |
| `Storage.Service.Section` | components/stark_storage/stark_storage.c:179-201 | The whole locked section keeps the invariant, consumes the requests, touches no handle or makes all stale, never mounts an ejected card unless asked, and returns the mount machine's exact wait (the log flush may shorten it). |
| `Storage.Service.AnyRun` | components/stark_storage/stark_storage.c:169-204 | After any interleaving of file calls, requests and locked sections, every descriptor ever opened has been closed exactly once, unless a live handle of the mounted generation holds it; then never. |
| `StorageRuns.AnyRun` | components/stark_storage/storage_file.c:144-280 | For every list of requests of any tasks, in any order: the trace is the story of exactly these requests, each with its answer and the service before and after it, from the service as it was to the service as it is; a commit is exactly a close of a usable atomic handle. Every commit through a handle whose writes all succeeded, alone on its file, leaves the final name after each of its file-system calls as the old file, the concatenation of the writes, or missing because it never existed or one of these calls unlinked it; and answering OK it holds the concatenation. |
| `StorageRuns.Serve` | components/stark_storage/storage_file.c:144-280 | One request of such a run, whichever it is: what happened to the service and what the trace tells of it are tied to that request, its arguments and its answer; no other event can be told. |
| `StorageRuns.Close` | components/stark_storage/storage_file.c:232-264 | One close in such a run: a commit exactly when the handle was usable and atomic before the call, recorded with the very calls it made and the disk before and after, and keeping that promise; the slot is free afterwards. |
| `StorageRuns.Open` | components/stark_storage/storage_file.c:144-181 | One open in such a run: OK exactly when a slot that was free now holds the handle for that path and mode; otherwise recorded as failed after it may have emptied the temporary file, or as refused without a call. |
| `StorageRuns.Write` | components/stark_storage/storage_file.c:206-230 | One write in such a run: recorded with its data and whether it succeeded exactly when the handle could be written before the call; it changes that handle's file alone, and nothing when refused. |
| `StorageRuns.HoldsExactly` | components/stark_storage/storage_file.c:53-64 | By the trace alone a handle is writing atomically if and only if it is usable and atomic. |
| `StorageRuns.TracksOpened` | components/stark_storage/storage_file.c:144-181 | After an open the run's events still say for every handle what it writes, what has been sent and whether it is alone on its file. |
| `Storage.HeldMeansHandle` | components/stark_storage/storage_file.c:54-181 | A descriptor is open if and only if a live handle holds it. |
| `EventCore.Core.Publish` | components/stark_event/stark_event_core.c:42-63 | A valid event joins the end of the log and the queue is its last min(count + 1, capacity) events; when full exactly the oldest is dropped; the high-water mark follows; an invalid type changes nothing. |
| `EventCore.Core.Subscribe` | components/stark_event/stark_event_core.c:126-146 | The error for every case; a subscriber is appended, at most eight. |
| `EventCore.Core.Pop` | components/stark_event/stark_event_core.c:95-107 | Takes the oldest queued event together with the subscribers of that moment. |
| `EventCore.Core.Deliver` | components/stark_event/stark_event_core.c:109-117 | Every subscriber to the event's type is called once, in order, although handlers publish and subscribe meanwhile. |
| `EventCore.Core.DeliverNext` | components/stark_event/stark_event_core.c:90-118 | Delivers the oldest event if and only if it was queued before the dispatch began (fewer than 2^32 publishes in the call). |
| `EventCore.Core.Dispatch` | components/stark_event/stark_event_core.c:65-124 | Terminates; delivers at most max events, only events queued when it began, in publish order, each once to every matching subscriber, even when handlers overflow the ring, and stops early only when none of the old ones is left; re-entrant calls do nothing; published = dropped + taken + queued throughout. |
| `EventCore.RingPops` | components/stark_event/stark_event_core.c:98-101 | Advancing the head leaves the ring holding all but its oldest event, wrap included. |
| `EventCore.RingPushes` | components/stark_event/stark_event_core.c:49-56 | Storing past the end leaves the ring holding its events and the new one, wrap included. |
| `EventCore.Wrap` | components/stark_event/stark_event_core.c:51-100 | The remainder in the ring arithmetic is the slot the ring lemmas speak of. |
| `EventCore.Gap` | components/stark_event/stark_event_core.c:87-97 | The difference of two wrapped counters is the true difference as long as that is below 2^32. |
| `EventBus.Bus.Publish` | components/stark_event/stark_event.c:96-114 | The event joins the log and the token is given, whatever other tasks, the consumer included, do in between; an event not yet taken or dropped is queued with the token there. |
| `EventBus.Bus.Dispatch` | components/stark_event/stark_event.c:124-134 | Keeps the wrapped count of consumed events exact. |
| `EventBus.Bus.Pending` | components/stark_event/stark_event.c:52-58 | The test on three wrapping counters is true if and only if the ring is non-empty. |
| `EventBus.Bus.Wait` | components/stark_event/stark_event.c:136-166 | OK means the ring is non-empty; a non-empty ring is always seen; leftover tokens cannot keep it looping: it terminates under any interleaving of producers. |
| `EventBus.SeesWorkExactly` | components/stark_event/stark_event.c:52-58 | In the transition system the check is exact at every point where the consumer makes it. |
| `EventBus.NextKeepsInv` | components/stark_event/stark_event.c:52-166 | Every atomic step of every producer and of the consumer keeps the accounting and the wakeup invariant. |
| `EventBus.NoLostWakeup` | components/stark_event/stark_event.c:96-166 | In every interleaving, a consumer about to block on a non-empty ring finds the token or some producer has still to give it; a wait that returned OK left work. |
| `EventBus.BlockedMeansEmpty` | components/stark_event/stark_event.c:136-166 | A consumer that can only block, with no producer left to give, has an empty ring. |
| `IrBits.LowIsAll` | components/stark_ir/ir_nec.c:36-86 | A number below 2^n is recovered from its n bits, least significant first. |
| `IrBits.HighIsAll` | components/stark_ir/ir_rc5.c:21-58 | And most significant first. |
| `IrPulse.PairsReadBack` | components/stark_ir/ir_nec.c:40-76 | Bits sent as gap and long or short pulse are read back from any durations within their windows, when the two pulse windows are apart. |
| `IrPulse.PushBits` | components/stark_ir/ir_nec.c:40-44 | The shifting loop appends the pulses of exactly the low n bits. |
| `IrPulse.ReadBits` | components/stark_ir/ir_nec.c:62-76 | The reading loop yields the word of the bits read, or fails exactly when some duration matches nothing. |
| `IrNec.Encode` | components/stark_ir/ir_nec.c:24-47 | The nominal timings of an acceptable frame, an error otherwise. |
| `IrNec.Decode` | components/stark_ir/ir_nec.c:49-87 | The frame of the specification decoder on every list of timings. |
| `IrNec.FrameOfWord` | components/stark_ir/ir_nec.c:36-86 | The 32 bits of a frame say its normal form: a NECX address of complementary bytes is a NEC address. |
| `IrNec.ToleratesJitter` | components/stark_ir/ir_nec.c:24-87 | Every accepted frame is decoded to its normal form from any timings within 25 % (at least 60 us) of nominal. |
| `IrSirc.Encode` | components/stark_ir/ir_sirc.c:23-38 | The nominal timings of an acceptable frame, an error otherwise, for the three lengths. |
| `IrSirc.Decode` | components/stark_ir/ir_sirc.c:40-76 | The frame of the specification decoder on every list of timings. |
| `IrSirc.ToleratesJitter` | components/stark_ir/ir_sirc.c:23-76 | Every accepted frame is decoded back from any timings within 25 % of nominal. |
| `IrBiphase.LevelsOfRuns` | components/stark_ir/ir_biphase.c:28-45 | Spelling out the run lengths of a list of half-bits gives the half-bits back. |
| `IrBiphase.RunsOfLevels` | components/stark_ir/ir_biphase.c:8-45 | And run lengths of what positive units spell out are those units. |
| `IrBiphase.RunsSplit` | components/stark_ir/ir_biphase.c:28-45 | A level change separates the runs before it from those after it. |
| `IrBiphase.RunsAtMost` | components/stark_ir/ir_biphase.c:28-45 | No run is longer than the longest stretch of equal half-bits. |
| `IrBiphase.Emit` | components/stark_ir/ir_biphase.c:28-45 | The in-place merging loop appends the scaled runs of the visible half-bits: leading and trailing spaces vanish. |
| `IrBiphase.Expand` | components/stark_ir/ir_biphase.c:8-26 | The expanding loop gives what the specification expansion does, failures and the capacity limit included. |
| `IrBiphase.VisibleReadsBack` | components/stark_ir/ir_biphase.c:8-45 | Durations that match and are nearest to their own number of units expand to the half-bits they were merged from. |
| `IrBiphase.OnlyThoseRead` | components/stark_ir/ir_biphase.c:8-26 | Only those do. |
| `IrBiphase.HalvesReadBack` | components/stark_ir/ir_rc6.c:44-80 | Reading bits from half-bits succeeds with b if and only if the half-bits are those of b. |
| `IrRc5.Encode` | components/stark_ir/ir_rc5.c:16-33 | The nominal timings of an acceptable frame, an error otherwise. |
| `IrRc5.Decode` | components/stark_ir/ir_rc5.c:35-67 | The frame of the specification decoder on every list of timings. |
| `IrRc5.ToleratesJitter` | components/stark_ir/ir_rc5.c:16-67 | Every accepted frame is decoded back from any timings within 25 % of nominal. |
| `IrRc6.Encode` | components/stark_ir/ir_rc6.c:24-53 | The nominal timings of an acceptable frame, an error otherwise. |
| `IrRc6.Parse` | components/stark_ir/ir_rc6.c:55-90 | The half-bit checks and the data loop read the frame of the specification, for any unit. |
| `IrRc6.Decode` | components/stark_ir/ir_rc6.c:92-110 | The frame of the specification decoder: nominal unit first, then the unit both leader parts agree on. |
| `IrRc6.ParsedExactly` | components/stark_ir/ir_rc6.c:55-90 | Timings of the right number of pulses parse to the frame if and only if every pulse matches and is nearest to its own number of units. |
| `IrRc6.ToleratesJitter` | components/stark_ir/ir_rc6.c:24-110 | Every accepted frame is decoded back from any timings within 15 % of nominal. |
| `IrRc6Exact.FullToleranceExactly` | components/stark_ir/ir_rc6.c:55-110 | Within 25 %, leader included, a frame is decoded back if and only if every pulse is nearest to its own number of nominal units, or the leader agrees on a unit by which every pulse is read as its own number and the frame does not look like its twin; then the twin is what is decoded. |
| `IrRc6Exact.OnlyTwinsAreAlike` | components/stark_ir/ir_rc6.c:24-90 | Two frames whose pulses differ only by twos for threes are the same frame, or a pair with the toggle set and data all zeros against all ones. |
| `IrRc6Exact.TwinPulses` | components/stark_ir/ir_rc6.c:24-53 | Such a pair differs in the eighth pulse alone. |
| `IrRc6Exact.ParsesExactly` | components/stark_ir/ir_rc6.c:55-90 | Any timings parse as some frame, at a given unit, if and only if each is one to three units within its window and they end where the half-bits of a frame change. |
| `IrRc6Exact.AcceptsExactly` | components/stark_ir/ir_rc6.c:92-110 | Any timings are accepted if and only if they are legible by the nominal unit behind a matching leader, or by a unit the leader agrees on. |
| `IrRc6Exact.FullToleranceFails` | components/stark_ir/ir_rc6.c:55-110 | At 25 % every frame has a spoiled version: one two-unit pulse measured at 1110 us. |
| `IrSymbols.Pack` | components/stark_ir/ir_symbols.c:56-93 | Succeeds if and only if the words fit, and then gives the halves of every duration two by two, ended by the end marker. |
| `IrSymbols.Unpack` | components/stark_ir/ir_symbols.c:27-53 | Merges equal levels up to the end marker as specified, failures included. |
| `IrSymbols.UnpackThenPack` | components/stark_ir/ir_symbols.c:27-93 | Packing then unpacking is the identity on every list of at most 256 non-zero durations, split ones included. |
| `IrSymbols.HalvesOfWord` | components/stark_ir/ir_symbols.c:7-70 | A word gives back the two halves packed into it and is below 2^32. |
| `IrCodec.NominalDurations` | components/stark_ir/ir_codec.c:19-45 | Every encoded frame is at most 256 durations of 1 to 65535 us. |
| `IrCodec.DecodesNominal` | components/stark_ir/ir_codec.c:19-60 | The fixed order is safe: every decoder tried before a frame's own rejects it. |
| `IrCodec.Loopback` | components/stark_ir/ir_codec.c:19-60 | Every frame the encoder accepts, encoded, packed, unpacked and decoded in the fixed order, comes back in its normal form. |
| `IrCodec.Encode` | components/stark_ir/ir_codec.c:19-45 | The error for every frame; what is encoded decodes to the frame's normal form; the protocol's carrier. |
| `IrCodec.Decode` | components/stark_ir/ir_codec.c:47-60 | The frame of the first decoder that accepts, or none. |
| `IrTolerance.NecTolerates` | components/stark_ir/ir_codec.c:47-60 | The dispatcher decodes every NEC frame back from any timings within 25 % of nominal. |
| `IrTolerance.Rc6TolerantExactly` | components/stark_ir/ir_codec.c:47-60 | Within 25 % the dispatcher decodes an RC6 frame back if and only if the RC6 decoder does, by the condition of FullToleranceExactly. |
| `IrTolerance.Rc6Tolerates` | components/stark_ir/ir_codec.c:47-60 | Within 15 % it always does. |
| `IrTolerance.Rc5TolerantExactly` | components/stark_ir/ir_codec.c:47-60 | Within 25 % the dispatcher decodes an RC5 frame back if and only if there are not 25 durations, the first at least 1800 us and each other one at most 750 us or a mark of 900 to 1500 us; such timings it takes for SIRC12. |
| `IrTolerance.Rc5Tolerates` | components/stark_ir/ir_codec.c:47-60 | Within 15 % it always does. |
| `IrTolerance.Rc5LooksLikeSirc` | components/stark_ir/ir_codec.c:47-60 | At 16 % it need not: a concrete RC5 frame its own decoder reads is taken for a SIRC12 one. |
| `IrTolerance.SircTolerantExactly` | components/stark_ir/ir_codec.c:47-60 | Within 25 % the dispatcher decodes a SIRC frame back if and only if its durations are not legible as RC6, by the nominal unit with a space of 667 us or more after the start, or by a unit the leader agrees on; such timings it takes for RC6. |
| `IrTolerance.SircTolerates` | components/stark_ir/ir_codec.c:47-60 | Within 11 % it always does. |
| `IrTolerance.SircLooksLikeRc6` | components/stark_ir/ir_codec.c:47-60 | At 12 % it need not: a concrete SIRC20 frame its own decoder reads is taken for an RC6 one. |
| `IrTolerance.Tolerates` | components/stark_ir/ir_codec.c:47-60 | Every frame the encoder accepts, of any protocol, is decoded back by the dispatcher from any timings within 11 % of nominal. |
| `IrRaw.Format` | components/stark_ir/ir_raw.c:15-44 | The file text exactly when it and its NUL fit the buffer, 0 otherwise. |
| `IrRaw.Parse` | components/stark_ir/ir_raw.c:138-199 | The signal or the error of the specification parser on every text. |
| `IrRaw.ParseLine` | components/stark_ir/ir_raw.c:152-187 | One line's effect: header, timings, carrier, or nothing. |
| `IrRaw.ParseDurations` | components/stark_ir/ir_raw.c:170-179 | The token loop reads 1 to 256 durations or fails exactly as specified. |
| `IrRaw.ParseNumber` | components/stark_ir/ir_raw.c:87-114 | Decimal or hexadecimal, None exactly for a bad digit or a value above the maximum. |
| `IrRaw.Token` | components/stark_ir/ir_raw.c:58-78 | The next maximal run of non-space characters, and what follows it. |
| `IrRaw.NumberReadsBack` | components/stark_ir/ir_raw.c:35-114 | Every number written in decimal is read back. |
| `IrRaw.TokensOfListed` | components/stark_ir/ir_raw.c:34-78 | The words of a timings line are its key and its numbers, in order. |
| `IrRaw.TextFits` | components/stark_ir/ir_raw.c:15-44 | Every writable signal's file takes at most 1634 of the 1800 bytes, and every line is below the parser's limit. |
| `IrRaw.FormatThenParse` | components/stark_ir/ir_raw.c:15-199 | Printing then parsing gives the same timings and carrier, with the frame the timings decode to, for every signal of 1 to 256 durations and a 20000 to 60000 Hz carrier. |
| `IrRaw.HeaderIsFirstWord` | components/stark_ir/ir_raw.c:138-199 | In every accepted file the first line with a word on it is the header; the first line is, if and only if it has a word. |
| `IrRaw.BlankLineFirst` | components/stark_ir/ir_raw.c:138-199 | A line without words in front of a file changes nothing about how it parses. |
| `IrRaw.CommentFirst` | components/stark_ir/ir_raw.c:138-199 | Every file the printer writes is accepted as the same signal behind any comment, although its first line is then not the header. |
| `InputCore.UpdateKey` | components/stark_input/input_core.c:51-100 | One key's sample makes the step of the specification, in state and actions. |
| `InputCore.EmitRepeat` | components/stark_input/input_core.c:36-48 | The repeat step of the specification, whose meaning NextRepeatLater and RepeatsNeverEarly give. |
| `InputCore.KeyStepObeys` | components/stark_input/input_core.c:51-100 | A key's actions obey the rules of the trace wherever it stands, and leave its block as the key's state says. |
| `InputCore.TracksChord` | components/stark_input/input_core.c:146-155 | So does the chord at the end of an update. |
| `InputCore.Keys.Update` | components/stark_input/input_core.c:135-157 | For any samples, wrapped times and timings: the trace keeps obeying the rules; every key is what the samples so far make of it; the actions are those of the keys in order and a CHORD last, at most 13; the caller gets the first that fit. |
| `InputCore.Keys.SetTiming` | components/stark_input/input_core.c:102-115 | A valid timing replaces the old one without touching a key; an invalid one changes nothing. |
| `InputCore.ShortExactly` | components/stark_input/input_core.c:76-86 | In a trace that obeys the rules a RELEASE is followed by SHORT if and only if its block had no LONG and no chord silences the key. |
| `InputCore.LongOncePerPress` | components/stark_input/input_core.c:88-100 | Between two LONGs of a key it was pressed anew. |
| `InputCore.ChordSilences` | components/stark_input/input_core.c:135-157 | From a CHORD on, as long as every update since ended with OK or BACK down, neither emits SHORT or LONG. |
| `InputRuns.DebouncedExactly` | components/stark_input/input_core.c:51-86 | Over any run of samples a key presses if and only if it is up and every sample for at least the debounce time has read down, releases if and only if it is down and they have read up, and nothing else changes it. |
| `InputRuns.SameFrom` | components/stark_input/input_core.c:54-58 | Where the samples equal to the last one begin: all from there on read the same, the one before does not. |
| `InputRuns.NextRepeatLater` | components/stark_input/input_core.c:36-48 | After a repeat the next one lies after this sample and at most an interval away while the held time plus an interval stays below 2^32; past that it lies after it if and only if the time due plus an interval does and does not wrap. |
| `InputRuns.RepeatsNeverEarly` | components/stark_input/input_core.c:36-100 | With steady timing the (c + 1)-th REPEAT of a press never comes before the delay and c intervals have passed, and the next one only at a later time, however the samples fall. |
| `InputRuns.LongExactly` | components/stark_input/input_core.c:76-100 | Over any run a LONG comes if and only if this is the first sample of the press at which the key, not silenced, has been held for the long-press time. |
| `InputRuns.RepeatsExactly` | components/stark_input/input_core.c:36-100 | Over any run a direction key that stays down emits REPEAT if and only if this is the first sample, since the last one or the press, at or after the time the repeat is due. |

## Left out

- FreeRTOS, RMT, I2C, SPI, LEDC and esp_lcd calls: only the order of steps that a property names is kept.
- PN532 framing and retries, and the identification table: an exchange is an error or the tag's answer, and whether a tag is Type 2 is an input.
- A tag swapped between the UID check and the last write, and a READ that answers with something other than the memory.
- A render after one that timed out with a transfer still on the wire: the queue is empty when a render begins.
- Text drawing: a string is a list of 1bpp blits, inside a narrowed clip when boxed, so its glyph lookup and UTF-8 decoding add nothing to the band theorem.
- Module providers and the module list, slot names and revisions, and the limit on the number of slots: the slot table has any length.
- Directory creation and listing beyond which files a sweep may delete; file sizes; log rotation and the flush before an eject.
- FAT details: case folding of names, and what a descriptor refers to after its file was unlinked or replaced; files are a map from path to bytes.
- Real time: deadlines, sleeping and timeouts are choices of the environment; only the arithmetic on counters is modelled.
- The event's timestamp and payload: one value; the stamp of a zero timestamp is not modelled.
- Uniqueness of the module hash: the model computes the same FNV-1a value and makes no claim about collisions.
- Carrier generation, the transmit gate, the capture ring and capture file names of the infrared service.
- Apps, menus, dialogs, settings, logging, the launcher and the status bar.
- ModuleCore.StaleStaysStale: needs fewer than 2^32 revocations of the slot, because the generation is a 32-bit counter; LeaseValidity says what happens otherwise.
- EventCore.Core.Dispatch: the order guarantee needs fewer than 2^32 publishes during one call, because the start mark is a 32-bit counter.
- StorageFiles.Files.Close: wholeness needs that no other open handle used the same temporary name; InstallsOwnExactly says what an OK close installs otherwise.
- InputRuns.RepeatsNeverEarly: needs one timing throughout and a key held for fewer than 2^32 ms, because the times count from the press in 32 bits.
