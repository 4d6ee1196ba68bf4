# Verified models of the 3DS SDK libraries

This project models the algorithms of the SDK that carry state, bit packing or arithmetic, and
proves what they promise, for all inputs, all runs or all reachable states.

| files | what they model |
|---|---|
| `CommandFormat.dfy`, `CommandBuffer.dfy` | the GPU command words, a reference decoder, and the bounded buffer writers |
| `Cmdlist.dfy`, `CmdlistSafety.dfy`, `CmdlistRuns.dfy`, `CmdlistLaws.dfy`, `CmdlistCallbacks.dfy`, `CmdlistManager.dfy` | command lists: splitting, running, stopping and interrupts as a transition system, its invariant, whole runs, what each call achieves, when callbacks come, and the same steps on list objects updated in place |
| `SavedCmdlist.dfy`, `SavedCmdlistCopy.dfy`, `SavedCmdlistUse.dfy`, `CmdlistRecording.dfy` | recording a stretch of a list and replaying it by copying, up to the whole call on list objects and buffers |
| `LzDecoder.dfy`, `LzEncoding.dfy`, `LzContext.dfy`, `LzCodes.dfy`, `LzErrors.dfy` | the resumable LZ10/LZ11 decoder: a machine over bytes, an encoder, the nested loops of the source, what they return, and which streams they refuse |
| `ObjectChains.dfy`, `Names.dfy`, `NameTable.dfy`, `Framebuffers.dfy`, `FbManager.dfy` | object names in chained tables, and the framebuffer manager with its attachments |
| `Calendar.dfy`, `TimeSpan.dfy` | Gregorian day arithmetic and division by a constant through a high product |
| `TextureTiling.dfy`, `MipLevels.dfy`, `MipCopy.dfy` | Morton tiling of textures, where mip levels lie, and copying a whole pyramid |
| `RomTable.dfy`, `RomPath.dfy`, `RomLookup.dfy` | the hashed ROM file table, the path parser, and opening a file |
| `Determinant.dfy`, `Matrix44.dfy` | 4x4 determinants and cofactors, and the two matrix inverses |
| `BucketCount.dfy` | the bucket count search |
| `Arithmetic.dfy`, `Wrappers.dfy` | C division, products of naturals, optional values |

Code that works step by step is modelled by methods with loops on classes, arrays and linked nodes;
each is proved equal to a function or an independent description, and the main theorems are lemmas
about those. Where a command list step appears both as a function (`Cmdlist`) and as a method
(`CmdlistManager.Manager`), the method's contract says that the object's view moves by exactly that
function.

Where the code and what one expects of it differ, the code is modelled, the exact condition is proved
and a failing input is given: `CmdlistSafety.StorageKeeps` and `StorageLosesWords` (last_split_offset
survives new storage), `LzContext.SplitCodes` and `SurplusUnreported` (return codes depend on the cut
although contexts do not), `Calendar.DayRecovered` and `DayMisread` (times before year 1, which lie
outside the range the checked constructor accepts), `Calendar.FieldsRecovered` and `SecondLost`
(GetSecond), `MipLevels.SizesAgree` and `LevelsBeyond` (small levels),
`BucketCount.QueryOptimalBucketCount` (the two largest counts).

Conventions: integers are unbounded unless a width is written out; a buffer address is an offset
from the buffer's base; an error report (`GL_ERROR_*`) followed by a return is a step that changes
nothing else; out-of-memory branches are not taken. Callers owe what the source leaves to them: a
data array that also holds the padding word of an even last chunk, 8-byte buffer sizes, an interrupt
only for a request in flight, memory of at least 4096 bytes below the write pointer of the decoder
(so that every back reference the format can express is inside it), and room for the declared size.

## Model

| member | source | states |
|---|---|---|
| `CommandFormat.HeaderBits` | `sources/libraries/gles2/commandbuffer.c:29` | the header fields occupy disjoint bits, so the `\|` of shifted fields is their sum (on 32-bit vectors) |
| `CommandFormat.HeaderFields` | `sources/libraries/gles2/commandbuffer.c:84` | register, byte enables, count and step flag are each recovered from the header word |
| `CommandFormat.DecodeConcat` | `sources/libraries/gles2/commandbuffer.c:21-58` | decoding is compositional: words that decode, followed by words that decode, decode to the writes of both in order |
| `CommandFormat.DecodeBurst` | `sources/libraries/gles2/commandbuffer.c:74-93` | for any count, the words of a burst decode to exactly the writes (reg+i, data[i]) (or (reg, data[i])), across the 128-value chunks |
| `CommandFormat.BurstLength` | `sources/libraries/gles2/commandbuffer.c:69-72` | a burst emits exactly what its space check reserves, two words less when the count is a multiple of 128 |
| `CommandBuffer.WordsFit` | `sources/libraries/gles2/commandbuffer.c:16-19` | a call that passes its space check stores an even number of words, no more than it reserved, all below the maximum |
| `CommandBuffer.DecodeOp` | `sources/libraries/gles2/commandbuffer.c:12-149` | the words of any single writer call decode to exactly the register writes the call is for; a dummy write decodes to none |
| `CommandBuffer.ApplyKeeps` | `sources/libraries/gles2/commandbuffer.c:16-19` | any call keeps the cursor within the buffer and on an 8-byte boundary, never moves it back, and touches nothing outside [cursor, max) |
| `CommandBuffer.FullIsFinal` | `sources/libraries/gles2/commandbuffer.h:8-15` | once the cursor is at the maximum every sequence of later calls changes nothing |
| `CommandBuffer.RunDecodes` | `sources/libraries/gles2/commandbuffer.c:12-149` | over any sequence of calls that leaves the buffer not full, the words added decode to the writes of all calls in order |
| `CommandBuffer.StoresExactly` | `sources/libraries/gles2/commandbuffer.c:16-149` | each of the five writers stores its words, of the stated number, and they decode to its meaning exactly when the cursor test of its line passes, the tests written out in numbers; otherwise the macro does nothing and the others mark the buffer full |
| `CommandBuffer.NeverDropped` | `sources/libraries/gles2/commandbuffer.c:16-149` | calls whose words stay clear of the maximum by two are never dropped: all their writes are in the buffer, in order |
| `CommandBuffer.WordsExample` | `sources/libraries/gles2/commandbuffer.c:74-93` | the words of a burst of three and of a single write, as literals |
| `CommandBuffer.Cursor.WriteReg` | `sources/libraries/gles2/commandbuffer.h:8-15` | the single-register macro on the live buffer: two words while there is room, else nothing |
| `CommandBuffer.Cursor.WriteRegs` | `sources/libraries/gles2/commandbuffer.c:65-95` | the loop through a moving pointer leaves exactly the buffer the value-level writer describes, or marks the buffer full |
| `CommandBuffer.Cursor.MultiWriteReg` | `sources/libraries/gles2/commandbuffer.c:12-62` | the same for writes to one register |
| `CommandBuffer.Cursor.CopyUnrolled` | `sources/libraries/gles2/commandbuffer.c:31-57` | copying two words at a time and then sixteen at a time stores what a plain copy stores, for every even length |
| `CommandBuffer.Cursor.FillRegs` | `sources/libraries/gles2/commandbuffer.c:100-131` | the same for a repeated value: a burst of a constant array that is never built |
| `CommandBuffer.Cursor.AddDummyWrite` | `sources/libraries/gles2/commandbuffer.c:133-149` | two header words, and the cursor past the words skipped, which keep their contents |
| `CommandBuffer.Cursor.WriteRegsBuffer` | `sources/libraries/gles2/commandbuffer.c:151-177` | the burst into a caller's buffer stores the same words and nothing else |
| `CmdlistManager.Manager.IssueSpeculative` | `sources/libraries/gles2/systemmanager.c:661-683` | the issue loop hands requests to the hardware up to the speculation limit or the first stop mark, in order, and does exactly the step Cmdlist.Issue |
| `CmdlistManager.Manager.RunCmdlist` | `sources/libraries/gles2/systemmanager.c:613-640` | the run call updates list and flags as the step Cmdlist.Run (serial run mode) |
| `CmdlistManager.Manager.StopCmdlist` | `sources/libraries/gles2/systemmanager.c:642-659` | the stop call marks the newest request in flight, or un-starts an idle list |
| `CmdlistManager.Manager.SubmitRequest` | `sources/libraries/gles2/systemmanager.c:980-1002` | an engine request goes into the next free slot, is counted, and wakes a started idle list; a full list takes nothing |
| `CmdlistManager.Manager.SplitDraw` | `sources/libraries/gles2/systemmanager.c:698-741` | closing a render request in place: closing writes, request, split offset, count, wake-up; nothing but the saved size changes when it does not fit |
| `CmdlistManager.Manager.Flush3D` | `sources/libraries/gles2/systemmanager.c:743-786` | a split exactly when something is pending |
| `CmdlistManager.Manager.InterruptHandler` | `sources/libraries/gles2/systemmanager.c:1053-1062` | one completion interrupt: retire, then stop, issue more or go idle, then call back |
| `CmdlistManager.Manager.ProceedNow` | `sources/libraries/gles2/systemmanager.c:1109-1121` | the locked part of the handler: a stop mark clears the run flags, else more is issued while requests remain |
| `CmdlistManager.Manager.ClearCore` | `sources/libraries/gles2/systemmanager.c:801-813` | the loop zeroes the requests in use and resets every counter and offset; marks on unused requests stay |
| `CmdlistManager.Manager.ClearCmdlist` | `sources/libraries/gles2/systemmanager.c:788-799` | a list that is running is left alone, any other is emptied |
| `CmdlistManager.Manager.BindCmdlist` | `sources/libraries/gles2/systemmanager.c:514-565` | refused while a recording is open; else the outgoing list keeps the live cursor, an unknown name makes a list, the live cursor becomes the incoming list's |
| `CmdlistSafety.StorageKeeps` | `sources/libraries/gles2/systemmanager.c:590-605` | giving a list new storage keeps the invariant if and only if nothing had been split off before: last_split_offset is not reset |
| `CmdlistSafety.StorageLosesWords` | `sources/libraries/gles2/systemmanager.c:590-605` | a list with 32 bytes behind it for which it does not: the first split after new storage covers none of the words written since |
| `CmdlistSafety.DeleteKeeps` | `sources/libraries/gles2/systemmanager.c:466-512` | deleting a list, also the bound or the started idle one, keeps the invariant |
| `CmdlistSafety.AddExternalKeeps` | `sources/libraries/gles2/systemmanager.c:2020-2058` | adding an external command buffer, splitting pending words first, keeps the invariant |
| `CmdlistSafety.CloseRenderExact` | `sources/libraries/gles2/systemmanager.c:706-719` | the size a split predicts is where the cursor really ends up, on a 16-byte boundary |
| `CmdlistSafety.Partition` | `sources/libraries/gles2/systemmanager.c:721-732` | own render requests cover every byte below last_split_offset exactly once and no byte from there on |
| `CmdlistSafety.Conservation` | `sources/libraries/gles2/systemmanager.c:1053-1059` | when every request of a list has retired, run_bufsize equals last_split_offset |
| `CmdlistRuns.StepKeeps` | `sources/libraries/gles2/systemmanager.c:613-683` | each of the fourteen steps, interrupts and replays included, keeps the whole invariant |
| `CmdlistRuns.Protocol` | `sources/libraries/gles2/systemmanager.c:613-683` | in every state any run reaches: run <= issued <= used <= max, at most num_speculative in flight, busy exactly while requests are in flight, and no started list with requests left is idle |
| `CmdlistRuns.ExecutedInOrder` | `sources/libraries/gles2/systemmanager.c:661-683` | over any run the requests executed since a list was reset are requests 0 to issued, in order, each once, with their work |
| `CmdlistRuns.StopQuiets` | `sources/libraries/gles2/systemmanager.c:642-659` | after a stop call the run is quiet |
| `CmdlistRuns.StopIsSafe` | `sources/libraries/gles2/systemmanager.c:642-659` | from a quiet state no run without a run call issues anything, whatever is added, bound, replayed, cleared or completed |
| `CmdlistRuns.StoppedListSettles` | `sources/libraries/gles2/systemmanager.c:1109-1121` | after a stop, whatever happens to other lists, the requests in flight retire one per interrupt and the list ends idle with run == issued, nothing lost and nothing extra, unless it is emptied once idle |
| `CmdlistRuns.RunResumes` | `sources/libraries/gles2/systemmanager.c:613-640` | a run call on an idle list with requests left resumes at the first request not yet run, up to the issue limit |
| `CmdlistLaws.RunStarts` | `sources/libraries/gles2/systemmanager.c:613-640` | a run call on any list with storage while nothing runs makes it the started one, whatever its counts, busy if it has a request left and waiting otherwise; any other run call does nothing |
| `CmdlistLaws.RunThenSubmit` | `sources/libraries/gles2/systemmanager.c:619-621` | a list run before it has anything left to do executes an engine request that is added next at once, and nothing else |
| `CmdlistLaws.RunThenSplit` | `sources/libraries/gles2/systemmanager.c:619-621` | the same for a split that fits, with the render request over what was pending |
| `CmdlistLaws.SubmitAdds` | `sources/libraries/gles2/systemmanager.c:980-1002` | an engine request of this very code is in the next slot and, on a waiting list, executed at once; without a free slot nothing changes |
| `CmdlistLaws.SplitAdds` | `sources/libraries/gles2/systemmanager.c:698-741` | if and only if a slot and 24 or 32 bytes are free, one render request from the split offset to the new cursor is added and nothing is pending any more |
| `CmdlistLaws.FlushAdds` | `sources/libraries/gles2/systemmanager.c:743-786` | the same if anything is pending, else nothing |
| `CmdlistLaws.ExternalAdds` | `sources/libraries/gles2/systemmanager.c:2020-2058` | an aligned external buffer becomes the newest request, behind one for what was pending, if there are slots and room for both; else nothing is added |
| `CmdlistLaws.InterruptRefills` | `sources/libraries/gles2/systemmanager.c:661-683` | after an interrupt without a stop mark everything is issued, or as much as may be in flight, or everything up to a stop mark |
| `CmdlistLaws.BindRestores` | `sources/libraries/gles2/systemmanager.c:550-562` | binding another list, or none, and coming back finds the cursor where it was |
| `CmdlistLaws.ClearEmpties` | `sources/libraries/gles2/systemmanager.c:788-813` | a cleared list is empty, with all its slots and its buffer to itself; the marks of requests that were in use are gone, and the other lists are as they were |
| `CmdlistLaws.StorageGives` | `sources/libraries/gles2/systemmanager.c:590-605` | new storage makes the bound list an empty one of the given size without marks, unless it is running |
| `CmdlistLaws.DeleteRemoves` | `sources/libraries/gles2/systemmanager.c:466-512` | exactly the named list goes, unless it is running, and nothing refers to it any more |
| `CmdlistCallbacks.InterruptCalls` | `sources/libraries/gles2/systemmanager.c:1103-1106` | the callback is called exactly when the finished request asks for it, or the list does and it was the last, with the number of the request |
| `CmdlistCallbacks.DrainCalls` | `sources/libraries/gles2/systemmanager.c:1094-1128` | over any number of interrupts the callback is called once for each request that asks, in order, and that of no other list |
| `CmdlistCallbacks.AskingExactly` | `sources/libraries/gles2/systemmanager.c:1103-1106` | those calls are, in increasing order, exactly the numbers of the requests that ask |
| `CmdlistRuns.Drains` | `sources/libraries/gles2/systemmanager.c:1094-1128` | one interrupt per request takes a running list exactly to its first stop mark or its end, where it is idle |
| `SavedCmdlist.RecordingStarts` | `sources/libraries/gles2/systemmanager.c:1660-1673` | starting a recording pads the cursor and leaves a valid empty recording |
| `SavedCmdlist.RecordingStops` | `sources/libraries/gles2/systemmanager.c:1675-1690` | stopping a recording without external requests yields one that can be replayed |
| `CmdlistRecording.RecordingWorks` | `sources/libraries/gles2/systemmanager.c:1660-1690` | whatever happens to the list between start and stop, short of emptying or deleting it, the recording can be replayed |
| `CmdlistRecording.SavableStays` | `sources/libraries/gles2/systemmanager.c:1692-1725` | a replayable recording stays replayable over any run until its list is emptied or deleted |
| `SavedCmdlist.PreparedFits` | `sources/libraries/gles2/systemmanager.c:1706-1725` | the capacity check suffices: the split in front succeeds and everything copied fits, on a 16-byte boundary |
| `SavedCmdlist.TiledCopies` | `sources/libraries/gles2/systemmanager.c:1785-1823` | the copied requests, behind those in use, again tile the buffer up to the new last_split_offset |
| `SavedCmdlist.UseSavedKeeps` | `sources/libraries/gles2/systemmanager.c:1692-1858` | replaying by copying keeps the whole run protocol invariant, on the running list too |
| `SavedCmdlistCopy.CopyRenders` | `sources/libraries/gles2/systemmanager.c:1781-1823` | the loop that rewrites request records through prev_addr + prev_size and copies words ends with every request moved by the same distance |
| `SavedCmdlistCopy.CopyCommands` | `sources/libraries/gles2/systemmanager.c:1775-1828` | the copying part in place, source and destination list the same or not: new requests, offsets and buffer contents exactly |
| `SavedCmdlistCopy.SameFirstCommands` | `sources/libraries/gles2/systemmanager.c:1787-1807` | the first copied render request covers the pending words followed by what was recorded of the saved one |
| `SavedCmdlistCopy.SameLaterCommands` | `sources/libraries/gles2/systemmanager.c:1800-1807` | every other copied render request covers exactly the command words of the saved one |
| `SavedCmdlistCopy.SamePending` | `sources/libraries/gles2/systemmanager.c:1824-1828` | what was recorded behind the last request is pending again behind the last copy |
| `SavedCmdlistUse.PreparedPending` | `sources/libraries/gles2/systemmanager.c:1706-1725` | the words pending in the bound list get a request of their own that covers exactly them, or are aligned and wait for the first copy; earlier requests stay |
| `SavedCmdlistUse.FailsExactly` | `sources/libraries/gles2/systemmanager.c:1706-1725` | the capacity check fails exactly when the slots or the bytes that a replay takes, written out, are more than are free |
| `SavedCmdlistUse.UseSavedSucceeds` | `sources/libraries/gles2/systemmanager.c:1706-1829` | a replay adds its requests, one more for pending words that cannot join them, and moves the cursor by the recorded, padding and closing bytes, if and only if those slots and bytes are free; otherwise no request is added and nothing is executed |
| `SavedCmdlistUse.UseSavedReplays` | `sources/libraries/gles2/systemmanager.c:1692-1853` | after a whole call, whenever there is room, the requests that were there are unchanged, each copy carries no mark and is the recorded engine request or covers exactly its recorded words, the first one behind the pending words, and the cursor is behind the bytes copied |
| `SavedCmdlistUse.UseSavedCmdlist` | `sources/libraries/gles2/systemmanager.c:1692-1853` | the call on list objects and their buffers, one list or two, does exactly that step, moves the cursor, and stores exactly the recorded bytes at it; without room nothing is stored |
| `LzDecoder.OrIsSum` | `sources/libraries/cx/cx_StreamingUncompression.cpp:20-27` | the `\|=` of header bytes adds disjoint bits (on 32-bit vectors) |
| `LzDecoder.FeedConcat` | `sources/libraries/cx/cx_StreamingUncompression.cpp:64-214` | feeding a stream cut in two, anywhere, reaches the same context and output as feeding it whole, or the same error |
| `LzDecoder.ChunkInvariance` | `sources/libraries/cx/cx_StreamingUncompression.cpp:64-214` | the same for any number of chunks |
| `LzDecoder.Conserved` | `sources/libraries/cx/cx_StreamingUncompression.cpp:98-206` | for every input: bytes written plus destCount stay the declared size, and no byte already written changes |
| `LzDecoder.ForcedNeverFails` | `sources/libraries/cx/cx_StreamingUncompression.cpp:173-180` | with a forced size no stream is an error once its first byte is accepted |
| `LzDecoder.PeriodicExtension` | `sources/libraries/cx/cx_StreamingUncompression.cpp:181-187` | an overlapping match repeats the last `distance` bytes periodically |
| `LzEncoding.FeedToken` | `sources/libraries/cx/cx_StreamingUncompression.cpp:107-195` | decoding an encoded literal or match, of any length class, emits exactly that token, cut at the bytes still wanted |
| `LzEncoding.FeedTokens` | `sources/libraries/cx/cx_StreamingUncompression.cpp:98-206` | decoding any encoded token list emits exactly its expansion |
| `LzEncoding.HeaderAgrees` | `sources/libraries/cx/cx_Uncompression.cpp:12-24` | for every input with a known format the decoder's destCount is GetUncompressedSize, as an s32, and the header takes 4 bytes or 8 |
| `LzEncoding.RoundTrip` | `sources/libraries/cx/cx_StreamingUncompression.cpp:64-214` | decoding the stream of any valid token list writes exactly its expansion; with a forced size, exactly the beginning of it; GetUncompressedSize reports its length |
| `LzEncoding.ChunkedRoundTrip` | `sources/libraries/cx/cx_StreamingUncompression.cpp:64-214` | the same however the stream is cut |
| `LzEncoding.RoundTripAlone` | `sources/libraries/cx/cx_StreamingUncompression.cpp:98-206` | when no match reaches behind what has been written, the bytes written are the text of the token list whatever lies below the destination, so also at the start of an array |
| `LzEncoding.TokenExtremes` | `sources/libraries/cx/cx_StreamingUncompression.cpp:118-160` | the shortest and longest match of every length class, as literal bytes |
| `LzEncoding.StreamExample` | `sources/libraries/cx/cx_StreamingUncompression.cpp:98-206` | a literal and an overlapping match as a literal stream: header, flag byte, tokens |
| `LzContext.UncompContext.constructor` | `sources/libraries/cx/cx_StreamingUncompression.cpp:50-62` | the initial context |
| `LzContext.UncompContext.ReadHeader` | `sources/libraries/cx/cx_StreamingUncompression.cpp:12-46` | the header loop leaves the context, and the input position, at which feeding the rest gives the same result |
| `LzContext.UncompContext.PutLength` | `sources/libraries/cx/cx_StreamingUncompression.cpp:115-160` | one byte of a length field updates length and lengthFlg as the byte machine does |
| `LzContext.UncompContext.PutMatch` | `sources/libraries/cx/cx_StreamingUncompression.cpp:167-187` | the offset byte and the copying loop write the match, cut if a size is forced, and report one that is too long |
| `LzContext.UncompContext.ReadUncompLZ` | `sources/libraries/cx/cx_StreamingUncompression.cpp:64-214` | the nested loops, for every chunk, reach exactly the context Feed reaches, or on an error the context at the refused byte with the refused format or length in it, write nothing above the write pointer, and return the stated code |
| `LzContext.ReachedConcat` | `sources/libraries/cx/cx_StreamingUncompression.cpp:64-214` | cutting a stream does not change the context at which an error is found |
| `LzContext.SplitCodes` | `sources/libraries/cx/cx_StreamingUncompression.cpp:208-213` | the return code of a split delivery equals that of one call if and only if it is not the case that everything was already written, the last chunk is at most 32 bytes and the surplus exceeds 32 without a forced size |
| `LzContext.UnfinishedCodesAgree` | `sources/libraries/cx/cx_StreamingUncompression.cpp:208-213` | as long as the earlier call has not finished, in particular when it returned how much is missing, the codes agree |
| `LzContext.SurplusUnreported` | `sources/libraries/cx/cx_StreamingUncompression.cpp:208-213` | a finished context and 40 surplus bytes for which they differ: -3 for one call, 0 and 0 for two |
| `LzCodes.StreamCode` | `sources/libraries/cx/cx_StreamingUncompression.cpp:89-200` | for any valid stream cut at any byte, forced or not, the return value is -1 while the header is incomplete and then the wanted size minus the bytes written, so 0 at its end |
| `LzCodes.ContinuedCode` | `sources/libraries/cx/cx_StreamingUncompression.cpp:89-200` | the same for a call that continues at any earlier byte |
| `LzCodes.SurplusCode` | `sources/libraries/cx/cx_StreamingUncompression.cpp:208-213` | behind a whole stream up to 32 surplus bytes return 0, more return -3, and 0 with a forced size |
| `LzCodes.PartLeft` | `sources/libraries/cx/cx_StreamingUncompression.cpp:98-206` | no byte of a valid stream is left over: it is finished by its last byte and not before |
| `LzCodes.HeaderPrefix` | `sources/libraries/cx/cx_StreamingUncompression.cpp:12-46` | every proper beginning of a header leaves it open |
| `LzErrors.Declared` | `sources/libraries/cx/cx_StreamingUncompression.cpp:98-206` | a stream that says as much as it declares or more: with a forced size the wanted bytes are written; without one they are if a token ends with the last declared byte, and the stream is refused with -4 if and only if none does |
| `LzErrors.OnlyFormats` | `sources/libraries/cx/cx_StreamingUncompression.cpp:69-88` | every stream that opens with another byte than 0x10 or 0x11 is refused with -1, and no other stream is |
| `LzErrors.OnlyOverlong` | `sources/libraries/cx/cx_StreamingUncompression.cpp:173-178` | behind the first byte the only error of any stream is -4 |
| `NameTable.NameTable.constructor` | `sources/libraries/gles2/vbmanager.c:35-55` | an empty table with hint 1 |
| `NameTable.NameTable.TryInsert` | `sources/libraries/gles2/texmanager.c:1171-1217` | one round of the search: a free name is linked in, keeping the bucket sorted and every old node; a taken one is skipped; the assert(0) behind the walk is not reached |
| `NameTable.NameTable.GenOne` | `sources/libraries/gles2/texmanager.c:1165-1220` | the search from the hint ends at the smallest unused positive name and leaves every smaller name taken |
| `NameTable.NameTable.Gen` | `sources/libraries/gles2/vbmanager.c:362-432` | n names are the n smallest unused positive ones in increasing order, all now in use |
| `NameTable.NameTable.Bind` | `sources/libraries/gles2/vbmanager.c:97-135` | binding adds the name if it is unknown, keeps every node, and keeps the hint valid without moving it |
| `NameTable.NameTable.DeleteOne` | `sources/libraries/gles2/texmanager.c:563-648` | deleting removes exactly that name, lowers the hint to it, and leaves a pinned or unknown name alone |
| `NameTable.NameTable.Delete` | `sources/libraries/gles2/systemmanager.c:466-512` | deleting a list of names removes exactly those in use and not pinned |
| `Names.SmallestUnique` | `sources/libraries/gles2/texmanager.c:1155-1225` | the names generated are determined by the names in use alone |
| `Names.SmallestSplit` | `sources/libraries/gles2/texmanager.c:1155-1225` | generating in two calls gives the names one call would give |
| `Names.FreedIsNext` | `sources/libraries/gles2/vbmanager.c:321-327` | a freed name is given out again before any larger one |
| `ObjectChains.Chains.InsertBehind` | `sources/libraries/gles2/fbmanager.c:271-296` | linking a node between two neighbours keeps every bucket sorted and complete |
| `ObjectChains.Chains.UnlinkBehind` | `sources/libraries/gles2/fbmanager.c:318-321` | unlinking a node keeps every other node linked in order |
| `ObjectChains.Chains.Seek` | `sources/libraries/gles2/fbmanager.c:309-316` | the walk stops at the first node not below the id and finds the id if and only if it is in the table |
| `ObjectChains.Chains.Link` | `sources/libraries/gles2/fbmanager.c:495-520` | the insertion walk adds the node to the sorted list |
| `Framebuffers.FillGap` | `sources/libraries/gles2/fbmanager.c:409-426` | a gap between neighbours is filled from its lower end with as many names as are still wanted |
| `Framebuffers.FillGaps` | `sources/libraries/gles2/fbmanager.c:409-440` | filling gaps from the front and then appending gives out the smallest unused names and keeps every old node |
| `FbManager.FbManager.constructor` | `sources/libraries/gles2/fbmanager.c:26-48` | framebuffer 0 exists and is current, there are no renderbuffers |
| `FbManager.FbManager.GenRenderbuffers` | `sources/libraries/gles2/fbmanager.c:371-444` | exactly the n smallest unused names in increasing order; old objects kept; the manager invariant kept |
| `FbManager.FbManager.GenFramebuffers` | `sources/libraries/gles2/fbmanager.c:609-672` | the same for framebuffers, new ones without attachments, attachments of the others kept |
| `FbManager.FbManager.BindRenderbuffer` | `sources/libraries/gles2/fbmanager.c:228-258` | 0 unbinds, an unknown name makes a renderbuffer, invariant kept |
| `FbManager.FbManager.BindFramebuffer` | `sources/libraries/gles2/fbmanager.c:522-551` | the named framebuffer is current and in the list, made without attachments if unknown; the attachments of the others are kept |
| `FbManager.FbManager.Detach` | `sources/libraries/gles2/fbmanager.c:345-369` | the nested loops clear exactly the attachments to one surface, in every framebuffer |
| `FbManager.FbManager.DeleteRenderbuffer` | `sources/libraries/gles2/fbmanager.c:305-343` | the renderbuffer leaves the list, the binding and every attachment; no attachment dangles |
| `FbManager.FbManager.DeleteRenderbuffers` | `sources/libraries/gles2/fbmanager.c:298-332` | the same for a list of names: exactly those are gone and exactly their attachments cleared |
| `FbManager.FbManager.DeleteFramebuffer` | `sources/libraries/gles2/fbmanager.c:577-595` | a framebuffer leaves the list; deleting the current one makes framebuffer 0 current; 0 itself is never deleted |
| `FbManager.FbManager.DeleteFramebuffers` | `sources/libraries/gles2/fbmanager.c:568-600` | the same for a list of names |
| `FbManager.FbManager.FramebufferRenderbuffer` | `sources/libraries/gles2/fbmanager.c:712-763` | attaching refers to a renderbuffer in the list, 0 detaches, an unknown name or a refused format changes nothing |
| `FbManager.FbManager.StartsWithZero` | `sources/libraries/gles2/fbmanager.c:26-48` | the framebuffer list starts with framebuffer 0 in every state |
| `Calendar.NextDayNumber` | `sources/libraries/fnd/fnd_DateTime.cpp:56-78` | the day count is 0 on 1 January 2000 and one more on the next day of every valid date, under Gregorian month lengths |
| `Calendar.DayNumberInjective` | `sources/libraries/fnd/fnd_DateTime.cpp:56-78` | two valid dates with the same count are the same date |
| `Calendar.IsLeapYear` | `sources/libraries/fnd/fnd_DateTime.cpp:36-54` | correct for negative years under C remainders |
| `Calendar.TruncatedYears` | `sources/libraries/fnd/fnd_DateTime.cpp:70-77` | the year formula with C truncation and the offset correction equals the floor formula, for years of either sign |
| `Calendar.DateToDays` | `sources/libraries/fnd/fnd_DateTime.cpp:56-78` | the day count of any date |
| `Calendar.DaysToDate` | `sources/libraries/fnd/fnd_DateTime.cpp:80-139` | for every integer, negative too, the valid date with that day count |
| `Calendar.DateRoundTrip` | `sources/libraries/fnd/fnd_DateTime.cpp:56-139` | date to days to date is the identity on valid dates |
| `Calendar.DaysRoundTrip` | `sources/libraries/fnd/fnd_DateTime.cpp:56-139` | days to date to days is the identity on all integers |
| `Calendar.WeekdaySteps` | `sources/libraries/fnd/fnd_DateTime.cpp:169-172` | weekdays step by one modulo 7, before 2000 too; 1 January 2000 was a Saturday |
| `Calendar.DayRecovered` | `sources/libraries/fnd/fnd_DateTime.cpp:24-28` | the day is recovered from milliseconds if and only if it is not before 1 January of year 1 or the time is midnight |
| `Calendar.DayMisread` | `sources/libraries/fnd/fnd_DateTime.cpp:24-28` | two milliseconds of the last day before year 1 for which it is not: they count as the next day |
| `Calendar.CheckedDayRecovered` | `include/nn/fnd/fnd_DateTime.h:36-43` | from MIN_MILLISECONDS, 1 January 1900, on, day and time of day are always recovered; only the operators and the constructor of fields, which check nothing, make earlier times |
| `Calendar.FromParameters` | `sources/libraries/fnd/fnd_DateTime.cpp:174-180` | milliseconds are day count and time of day |
| `Calendar.FieldsRecovered` | `sources/libraries/fnd/fnd_DateTime.cpp:208-226` | hour, minute and millisecond are recovered; GetSecond returns the milliseconds modulo 60, so it is right only where that is the second |
| `Calendar.SecondLost` | `sources/libraries/fnd/fnd_DateTime.cpp:218-221` | a concrete time whose second is read wrongly |
| `TimeSpan.MultiplyRightShiftExact` | `include/nn/fnd/fnd_TimeSpan.h:24-37` | for all signed 64-bit operands the result is the floor of the product over 2^64, whatever the unsigned conversions on the way |
| `TimeSpan.DivideNanoSeconds` | `include/nn/fnd/fnd_TimeSpan.h:44-53` | the shifted high product plus the sign correction |
| `TimeSpan.MagicDivides` | `include/nn/fnd/fnd_TimeSpan.h:55-58` | the constant and shift give division by 10^6, truncated, for every signed 64-bit value |
| `TimeSpan.GetMilliSeconds` | `include/nn/fnd/fnd_TimeSpan.h:55-58` | the fast form equals plain C division by 1000000 |
| `TextureTiling.SwizzleInverse` | `sources/libraries/gles2/texmanager.c:832-834` | the Morton offset in a tile gives both coordinates back |
| `TextureTiling.OffsetInverse` | `sources/libraries/gles2/texmanager.c:827-834` | the tiled offset of a texel gives its coordinates back, for any row length in tiles |
| `TextureTiling.OffsetOnto` | `sources/libraries/gles2/texmanager.c:819-834` | every place of the texture is the offset of a texel inside it |
| `TextureTiling.ZOrderRight` | `sources/libraries/gles2/texmanager.c:828-834` | steps to the right within a tile are 1, 4 and 16 places, the next tile is 64 on |
| `TextureTiling.ZOrderDown` | `sources/libraries/gles2/texmanager.c:828-834` | steps down are 2, 8 and 32 places, the next row of tiles follows the whole row |
| `TextureTiling.AndIsBit` | `sources/libraries/gles2/texmanager.c:832-834` | on 32-bit vectors `x & j` is the bit the loop is modelled to add |
| `TextureTiling.Morton` | `sources/libraries/gles2/texmanager.c:828-834` | the bit loop computes the interleaved offset |
| `TextureTiling.BlockCopy` | `sources/libraries/gles2/texmanager.c:819-866` | every texel of the tiled texture is written, from the one source texel of its column and of the row counted from the bottom, and nothing outside the texture is touched, wherever it lies in its buffer; the range guards never skip |
| `TextureTiling.TexelLands` | `sources/libraries/gles2/texmanager.c:823-866` | in a tiled texture column x of row v holds column x of the source row v counted from the bottom |
| `TextureTiling.MergeNibble` | `sources/libraries/gles2/texmanager.c:849-857` | masking in half a byte replaces exactly one nibble |
| `TextureTiling.BlockCopyNibbles` | `sources/libraries/gles2/texmanager.c:819-857` | the same for four-bit formats, nibble by nibble |
| `MipLevels.SurfaceSize` | `sources/libraries/gles2/surface.c:245-257` | the size is the end of the last level that is at least 8x8 |
| `MipLevels.CopyOffsets` | `sources/libraries/gles2/texmanager.c:1082-1092` | each level is copied to its own offset |
| `MipLevels.GenerateMipmap` | `sources/libraries/gles2/texmanager.c:1129-1153` | each level is generated at its offset from the level before |
| `MipLevels.HalvingReaches` | `sources/libraries/gles2/texmanager.c:1144-1150` | request k reads exactly the bytes of level k, whose edges are those of the texture over 2^k, and writes exactly those of level k + 1 |
| `MipLevels.NeverOverwritten` | `sources/libraries/gles2/texmanager.c:1144-1150` | no request writes a byte that it or an earlier one reads |
| `MipLevels.EdgeIs` | `sources/libraries/gles2/surface.c:251-256` | halving k times divides an edge by 2^k |
| `MipLevels.LevelsFill` | `sources/libraries/gles2/texmanager.c:1086-1092` | every byte below the end belongs to exactly one level |
| `MipCopy.CopyPyramid` | `sources/libraries/gles2/texmanager.c:1082-1092` | the level loop around the block copy: every level of whole tiles is tiled at its own offset from the source level at the same offset, and nothing behind the last one is touched |
| `MipLevels.CountsAll` | `sources/libraries/gles2/surface.c:251-256` | the size loop covers all levels if and only if the smallest is still 8x8 |
| `MipLevels.SizesAgree` | `sources/libraries/gles2/surface.c:251-256` | the surface ends where the copying and generating loops end if and only if there is no level, the smallest is still 8x8, or already the first is smaller and has no bytes; otherwise those loops go beyond it |
| `MipLevels.LevelsBeyond` | `sources/libraries/gles2/surface.c:251-256` | two levels from 8x8 at four bits: 32 bytes of surface, 40 bytes of levels |
| `BucketCount.OneInHundred` | `sources/libraries/fslow/fslow_QueryOptimalBucketCount.cpp:21-30` | any 100 consecutive numbers include one coprime to 2, 3, 5, 7, 11, 13 and 17 |
| `BucketCount.OrOneIs` | `sources/libraries/fslow/fslow_QueryOptimalBucketCount.cpp:15-30` | on 32-bit vectors `n \| 1` is n, or n + 1 when n is even, as modelled |
| `BucketCount.QueryOptimalBucketCount` | `sources/libraries/fslow/fslow_QueryOptimalBucketCount.cpp:10-33` | above 19 the loop always returns; the result is the least such number from the count on if and only if the count is at most 0xfffffffd, and 1 for the two counts beyond, where the u32 sum wraps |
| `RomTable.Hash` | `include/nn/dbm/dbm_HierarchicalRomFIleTableTemplate.h:90-102` | the hash loop |
| `RomTable.RotateIs` | `include/nn/dbm/dbm_HierarchicalRomFIleTableTemplate.h:97` | the shift pair moves the low five bits to the top |
| `RomTable.HashExamples` | `include/nn/dbm/dbm_HierarchicalRomFIleTableTemplate.h:90-102` | the hash of the root's key and of a two-letter name in it, as literals |
| `RomTable.FindInternal` | `include/nn/dbm/dbm_KeyValueRomStorageTemplate.h:115-161` | the chain walk ends and finds exactly the entry a scan of all entries finds, or none if there is none |
| `RomPath.ComponentsJoin` | `sources/libraries/dbm/dbm_RomPathTool.cpp:87-133` | splitting undoes joining for any list of valid names |
| `RomPath.PathParser.Initialize` | `sources/libraries/dbm/dbm_RomPathTool.cpp:60-85` | a path must start with a separator; leading separators are skipped |
| `RomPath.PathParser.GetNextDirectoryName` | `sources/libraries/dbm/dbm_RomPathTool.cpp:87-133` | the component scanned before is handed out, the next one is scanned up to its separator or the end, and a directory name of 256 or more is refused |
| `RomLookup.GetDirectoryEntry` | `include/nn/dbm/dbm_HierarchicalRomFileTableTemplate.impl.h:45-67` | the sub-directory found by scan; a file of that name is an invalid operation, nothing is not found |
| `RomLookup.GetFileEntry` | `include/nn/dbm/dbm_HierarchicalRomFileTableTemplate.impl.h:229-252` | the same for files |
| `RomLookup.FindParentDir` | `include/nn/dbm/dbm_HierarchicalRomFileTableTemplate.impl.h:141-204` | the loop over the parser resolves exactly the directories of the path, with the first error of the walk |
| `RomLookup.OpenFile` | `include/nn/dbm/dbm_HierarchicalRomFileTableTemplate.impl.h:299-314` | opening a path returns what walking the directory tree over its non-empty, non-`.` components returns, or fails as that walk fails |
| `RomLookup.PlainLookup` | `include/nn/dbm/dbm_HierarchicalRomFileTableTemplate.impl.h:299-314` | for a path joined from plain names: follow the directories one by one, look the file up in the last |
| `RomLookup.FileVerdict` | `include/nn/dbm/dbm_HierarchicalRomFileTableTemplate.impl.h:229-252` | behind directories that exist a file name of up to 256 characters gives the file, an invalid operation if a directory has that name, not found otherwise, and a longer one is too long |
| `RomLookup.DirectoryVerdict` | `include/nn/dbm/dbm_HierarchicalRomFileTableTemplate.impl.h:45-67` | a missing directory on the way is not found, a file in its place an invalid operation |
| `RomLookup.DirectoryTooLong` | `sources/libraries/dbm/dbm_RomPathTool.cpp:101-106` | a directory name of 256 characters or more is refused, before the directory in front of it is looked up; one of 255 is not |
| `CmdlistRuns.WritersAreSteps` | `sources/libraries/gles2/commandbuffer.c:16-19` | on the bound list's buffer every writer call moves the cursor as a Write step may, so the runs cover real command writing; the macro's move is the one a closing split takes |
| `Determinant.DetSwapped` | `include/nn/math/math_Matrix44.h:156-163` | exchanging two different rows changes only the sign of the determinant |
| `Determinant.DetScaled` | `include/nn/math/math_Matrix44.h:166-171` | scaling one row scales the determinant by the same factor |
| `Determinant.DetSubtracted` | `include/nn/math/math_Matrix44.h:178-183` | taking a multiple of another row from a row leaves the determinant |
| `Determinant.RowExpansion` | `include/nn/math/math_Matrix44.h:236-278` | a row by its own cofactors is the determinant, by another row's cofactors zero |
| `Determinant.InverseRight` | `include/nn/math/math_Matrix44.h:279-295` | the input times its cofactor inverse is the identity, whenever the determinant is not zero |
| `Determinant.InverseLeft` | `include/nn/math/math_Matrix44.h:279-295` | the cofactor inverse times the input is the identity too |
| `Determinant.LeftIsRight` | `include/nn/math/math_Matrix44.h:123-318` | any left inverse is the same matrix as any right inverse, so eliminating and cofactors cannot disagree |
| `Matrix44.DetTerms` | `include/nn/math/math_Matrix44.h:222-229` | the 24 terms are the determinant by expansion along the first row |
| `Matrix44.CofactorEntries` | `include/nn/math/math_Matrix44.h:236-278` | each of the sixteen entries is the signed cofactor of its place in the transposed matrix |
| `Matrix44.InverseFast` | `include/nn/math/math_Matrix44.h:190-318` | 0 and an untouched output exactly when the determinant is 0; else 1 and the inverse, in place or not |
| `Matrix44.FindPivot` | `include/nn/math/math_Matrix44.h:138-149` | a row from i down whose entry of column i is largest in magnitude |
| `Matrix44.NoPivot` | `include/nn/math/math_Matrix44.h:151-154` | with the columns before i finished and no pivot in column i, the determinant is 0 |
| `Matrix44.Finish` | `include/nn/math/math_Matrix44.h:185-187` | once the reduced matrix is the identity, the other one is a left inverse, equal to the cofactor inverse, and the determinant was not 0 |
| `Matrix44.SubtractReduces` | `include/nn/math/math_Matrix44.h:173-184` | each row operation keeps inv times the original equal to src, and src singular exactly when the original is |
| `Matrix44.SwapReduces` | `include/nn/math/math_Matrix44.h:156-163` | the same for the row exchange |
| `Matrix44.ScaleReduces` | `include/nn/math/math_Matrix44.h:166-171` | the same for scaling by a factor that is not zero |
| `Matrix44.InverseGaussJordan` | `include/nn/math/math_Matrix44.h:123-188` | 0 exactly when the determinant is 0; else 1, the output times the input is the identity, and it is the very matrix the cofactors give, in place or not |

## Left out

- CmdlistManager.Manager.SubmitRequest: the parameters of an engine request are one opaque code, because the protocol never reads them.
- Cmdlist.Storage, Cmdlist.Delete, Cmdlist.AddExternal and Cmdlist.MarkStop are steps on values only: they have no method on list objects, so aliasing of the freed storage is not captured there.
- CmdlistManager: the hash table of command lists is a map from names to objects; `NameTable` models the table itself.
- CmdlistManager.Manager.RunCmdlist: only the serial run mode, the one a list starts in; in the other modes of the switch the source sets is_running and issues nothing.
- CmdlistManager.Manager.SplitDraw: the gas flag of the request and the subroutine fix-up are not modelled; the run protocol reads neither.
- CmdlistManager.Manager.Flush3D: the same as for SplitDraw.
- CmdlistSafety.AddExternalKeeps: the branch of nngxAdd3DCommand that copies the commands instead of adding a request is not modelled.
- Subroutine commands (`subr_addr`), nngxTransferRenderImage with its early return between two requests, and exporting lists.
- SavedCmdlist.UseSavedKeeps: replaying without copying, recordings with external buffers, and the validation state masks.
- Registers, interrupts and callbacks are events: what a callback does is not modelled, and a memory fill that raises two interrupts counts as one.
- CommandBuffer: addresses near the top of the 32-bit range, where the space check of a burst would wrap.
- LzEncoding.RoundTrip: asks for 4096 bytes below the destination, which a match may reach; `RoundTripAlone` shows that streams that never do so do not depend on them.
- LzEncoding.ChunkedRoundTrip: asks for the same 4096 bytes.
- LzContext.UncompContext.constructor: asks for the same 4096 bytes, so that any stream, not only a valid one, stays inside the memory.
- LzDecoder: a back reference below the 4096 bytes before the output is not modelled, because the format cannot express one.
- NameTable.NameTable.Gen: names do not wrap at 2^32, and what the objects hold is not modelled.
- FbManager.FbManager.FramebufferRenderbuffer: the format checks are one boolean; surface contents, status and validation are not modelled.
- Calendar.DateToDays: s32 overflow for years beyond the millions is not modelled. `DateToDays` appears twice in the source with the same formula.
- SavedCmdlistUse.UseSavedCmdlist: the words that padding and closing writes store are not modelled; `UseSavedReplays` speaks of the buffer as it is when the copy starts.
- TextureTiling.BlockCopy: a texel is one value, whatever its bytes; scaled copies, block sources, sub-rectangles, ETC blocks and the byte swaps before the copy are not modelled.
- TextureTiling.BlockCopyNibbles: as for BlockCopy, unscaled copies of whole textures from linear data only.
- MipCopy.CopyPyramid: levels whose edges are not multiples of 8 are not copied in the model, and an offset counts texels, not bytes.
- RomTable: entries are records found by position, not bytes; storage read errors do not occur.
- RomLookup.FindParentDir: `..` components are excluded.
- RomLookup.OpenFile: `..` components are excluded, because the source treats the root as 0xC in one function and 0 in another; FindOpen and enumeration are not modelled.
- Matrix44.InverseGaussJordan and Matrix44.InverseFast: entries are exact reals, so rounding and the choice of pivot for accuracy are not modelled; what the first leaves in the output when it returns 0 is not stated. The inner loops over both arrays are one call for each array, and the sixteen cofactors, the products of their expansions and the final stores are calls too.
- IPC wrappers, locks, heaps, fonts, shaders, display and vsync code: I/O, or easy members.
