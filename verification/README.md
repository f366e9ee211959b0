# emacs-libvterm Windows pseudo-console core, modelled in Dafny

This project models the sequential logic under the Windows pseudo-console (ConPTY) support of emacs-libvterm. It covers three parts:

- **The two bump-pointer arenas.**
  - `arena.c` grows each new block by doubling the previous one, capped at 16 MiB.
  - `conpty-proxy/arena.c` always opens blocks of the default size, or of the request's size when that is larger.
  - A block is `(size, used)`. The allocator is the block list, with the head (`current`) as its last element. A returned pointer is a `(block index, offset)` pair.
- **The standalone proxy `conpty-proxy/conpty_proxy.c`:**
  - the memoised loader of the three pseudo-console entry points;
  - the `"%d %d"` resize message written by `resize` and parsed by the control channel;
  - the accept decision for a resize;
  - the ordered start-up checks and their exit codes;
  - the completion-port dispatcher;
  - the stdin forwarder.
- **The in-process pseudo console `conpty.c`:**
  - the same sticky loader;
  - the output thread's bounded 256 KiB pending buffer and its 0/1 buffer index;
  - the Emacs functions `init`, `read-pending`, `write`, `resize`, `is-alive` and `kill`;
  - the cleanup transition.

Every Win32, C runtime and Emacs call is an oracle input:

- a boolean says whether the call succeeded;
- a byte sequence stands for the data a read returned;
- an integer stands for a count the OS reported.

The proxy's dispatcher thread and the module's output thread are not run concurrently. Each is a sequential step function over a sequence of events. For the output thread, its reads and Emacs' pulls of pending output are interleaved in one sequence, which is the order the pending-buffer lock imposes.

Files:

- `common.dfy`: `Option`, `byte`, `Size`, C `int` range.
- `arena.dfy`: the block list both arenas share.
- `growth_arena.dfy` and `fixed_arena.dfy`: the two arenas.
- `api_loader.dfy`: both loaders.
- `resize_message.dfy`: the message format and its parser.
- `proxy.dfy`: the proxy.
- `in_process.dfy`: the in-process module.

Where the code and its comments or documentation disagree, the model follows the code:

- The proxy's error enum has eighteen codes, 1 to 18, with `ERROR_MAX` = 19. Codes 17 and 18 are the two completion-port bindings. The `return -1` after `CreateThread` is unreachable as written, because the handle is compared with the wrong sentinel (see Findings). The corrected `Proxy.New` returns -1 there, which is outside the enum.
- `arena.h` declares an allocator without `last_block_size`, but `arena.c` reads and writes one. `GrowthArena.Allocator` has the field; `FixedArena.Allocator` follows `arena.h`.
- The comment in `arena_reset` says every rewound block stays available for reuse. `arena_alloc` only ever looks at the head block, so after a reset a request larger than the head opens a new block even when an older block could hold it (`GrowthArena.ResetReusesOnlyHead`).
- The proxy's dispatcher has one output buffer, `io_buf`. On an output completion it first writes the buffer to standard output and then issues the next read into the same buffer. It does not keep a second buffer. Because of that order, no write overlaps a read (`Proxy.Serve`).
- The proxy reads the control message synchronously, on the dispatcher thread.
- The proxy's stdin loop stops only on a failed read or write, not on a zero-byte read.
- The module's output thread keeps its buffer index in a local variable. The `output_buf_active` field is never used.
- `conpty_cleanup` calls `TerminateProcess` on the shell before closing its handle.

## Model

| member | source | states |
|---|---|---|
| Arena.Align8 | arena.c:43 | the rounded request is a multiple of 8, at least the request and less than 8 above it |
| Arena.Align8AsWritten | conpty-proxy/arena.c:17 | `(size + 7) & ~7` in 64-bit `size_t` is 8-aligned and agrees with the exact rounding for every size up to 2^64 - 8 |
| Arena.Align8AsWrittenLosesRequest | arena.c:43 | the largest request, 2^64 - 1, rounds to 0 as written, while the exact rounding is at least the request |
| Arena.FitsAsWrittenAgrees | conpty-proxy/arena.c:22 | when `used + size` does not pass 2^64, the fit check as written agrees with `Fits` |
| Arena.FitCheckAsWrittenWraps | arena.c:48 | a head block with 8 bytes used and a request rounding to 2^64 - 8 passes the fit check as written, though it does not fit, and the bumped cursor wraps to 0, below the bytes already handed out |
| Arena.Place | arena.c:45-83 | the head block serves the request when it fits, with the list length unchanged; otherwise a new block of the given capacity, with `used` equal to the request, is pushed after the unchanged older blocks, or nothing happens when the OS refuses; the returned range ends at its block's cursor, within its size, no other block changes, and cursors stay aligned |
| Arena.PlaceAccounting | arena.c:81-83 | an allocation adds exactly the served bytes to the bytes in use and never lowers committed capacity |
| Arena.PlaceDisjoint | arena.h:9-11 | a new allocation lies in one block, overlaps no earlier allocation, and all allocations stay below their blocks' cursors |
| Arena.CommittedCoversUsed | arena.c:48 | for a well-formed block list, bytes in use never exceed the capacity obtained |
| Arena.Rewind | arena.h:38 | reset keeps every block and its capacity, and sets every cursor to 0 |
| Arena.ReleaseAll | arena.h:41-42 | destroy releases every block exactly once, head first, then the allocator last, and nothing else |
| GrowthArena.Create | arena.c:21-39 | a new allocator has no blocks and its growth base equals the default size; it fails only when the OS refuses |
| GrowthArena.NextBlockSize | arena.c:49-57 | the new capacity is max(request, min(2 x last, 16 MiB)): at least the request, and above 16 MiB only when the request is |
| GrowthArena.Alloc | arena.c:41-84 | when the head can take the rounded request, the result is the head's old cursor and the cursor moves on by exactly the rounded request; otherwise a new block of `NextBlockSize` is pushed, becomes the growth base, and the result is its offset 0; the result is aligned and inside its block |
| GrowthArena.AllocSeries | arena.h:35-36 | over any run of allocations, replayed request by request from the starting allocator, a request is served exactly when it fits the head it meets or the OS grants a block (so every request is served when the OS never refuses); the served requests are listed in order, each at the head's cursor or at the start of a new block, with exactly its rounded size, at least what it asked; every span is aligned, inside committed capacity and disjoint from all others; bytes in use grow by exactly the bytes served |
| GrowthArena.AllocNext | arena.c:41-84 | one more request of a run keeps the run's invariant: the replay moves on by one `arena_alloc` call, and the request is recorded as served, with a span of its rounded size disjoint from every earlier span, exactly when that call returned memory |
| GrowthArena.RecordStep | arena.c:47-83 | request `k` joins the list of served requests exactly when it fit the head it met or was granted a block, and its span starts at the head's cursor or at offset 0 of the new block |
| GrowthArena.SpaceStep | arena.c:47-83 | a served request keeps every span aligned, below its block's cursor and disjoint from the others, and adds exactly its rounded size to the bytes in use |
| GrowthArena.Reset | arena.c:86-96 | every cursor is rewound, the blocks and their capacities are kept, and the growth base returns to the default |
| GrowthArena.ResetReusesOnlyHead | arena.c:93-95 | after a reset, a request that only an older block could hold still opens a new block |
| GrowthArena.Destroy | arena.c:98-115 | each block is released once, head (newest) first down to the oldest, then the allocator |
| FixedArena.Create | conpty-proxy/arena.c:3-13 | a new allocator has no blocks and keeps the default size; it fails only when the OS refuses |
| FixedArena.BlockSize | conpty-proxy/arena.c:24-25 | a new block's capacity is the larger of the rounded request and the default, and is one of them |
| FixedArena.Alloc | conpty-proxy/arena.c:15-45 | when the head can take the rounded request, the result is the head's old cursor and the cursor moves on by exactly the rounded request; otherwise a new block of capacity max(rounded request, default) is pushed after the unchanged older blocks, and the result is its offset 0; the result is aligned and inside its block |
| FixedArena.AllocDisjoint | conpty-proxy/arena.c:42-44 | the returned range overlaps no earlier allocation, and bytes in use grow by exactly the rounded request |
| FixedArena.Reset | conpty-proxy/arena.c:47-54 | every cursor is zeroed, and the list and capacities are unchanged |
| FixedArena.Destroy | conpty-proxy/arena.c:56-65 | each block is released once, head (newest) first down to the oldest, then the allocator |
| ApiLoader.Init | conpty-proxy/conpty_proxy.c:80-114 | returns only 0 or -1, and 0 exactly when loaded; a failed or loaded state answers without querying the OS; a first call loads exactly when kernel32 and all three symbols resolve; the proxy stops at the first missing symbol, while the module looks up all three |
| ApiLoader.SettledStaysSettled | conpty.c:90-94 | once failed, or once loaded, every later call returns the same code and asks the OS nothing |
| ApiLoader.Sticky | conpty.h:60-64 | across any sequence of calls, every call returns what the first returned, only the first queries the OS, and it succeeds exactly when all three symbols resolved |
| ResizeMessage.ScanSize | conpty-proxy/conpty_proxy.c:247-256 | at most two conversions happen, and a target that was not converted keeps its initial 0 |
| ResizeMessage.FormatThenScan | conpty-proxy/conpty_proxy.c:437 | the text `"%d %d"` produces for any two integers parses back under `"%d %d"` to exactly those two integers |
| ResizeMessage.FormatSizeLength | conpty-proxy/conpty_proxy.c:436-440 | the message for two C `int`s is at most 23 characters |
| Proxy.OnCtrlAccept | conpty-proxy/conpty_proxy.c:246-270 | a resize happens exactly when the read returned bytes, two values were parsed, both are positive and the pair differs from the stored size; then the stored size becomes exactly that pair; otherwise nothing changes |
| Proxy.SameMessageTwice | conpty-proxy/conpty_proxy.c:261-263 | delivering the same message again issues no resize and keeps the size |
| Proxy.ResizeClient | conpty-proxy/conpty_proxy.c:412-444 | codes are checked in this order: 1 for argc < 5, then 16 for a missing control pipe, then 5 for a non-positive size; a message is sent exactly when the code is 0, and it parses back to the requested size |
| Proxy.ClientToServer | conpty-proxy/conpty_proxy.c:436-440 | a message the client sends fits in one 64-byte control read, and the server's size becomes exactly the requested pair, with a resize exactly when it differs from the current size |
| Proxy.Dispatch | conpty-proxy/conpty_proxy.c:280-291 | each packet is taken first; an output packet writes exactly its bytes, resizes nothing and ends by re-arming the read; a control packet leaves the size `on_ctrl_accept` gives, makes exactly its resize calls, writes nothing and ends by re-arming the accept; any other key is taken and nothing else happens |
| Proxy.Control | conpty-proxy/conpty_proxy.c:246-290 | folding `on_ctrl_accept` over the control messages leaves the size of the last resize, or the start size when none was issued, and every resize it issues is positive |
| Proxy.IoReadStep | conpty-proxy/conpty_proxy.c:285-287 | an output completion writes its bytes while no read is outstanding, then re-arms the read |
| Proxy.QuietStep | conpty-proxy/conpty_proxy.c:288-291 | a control completion, or any other key, leaves standard output untouched and the size follows its resize, if any |
| Proxy.DispatchStep | conpty-proxy/conpty_proxy.c:285-291 | one packet keeps a read outstanding and no write during a read, resizes only to positive sizes, and adds exactly its own bytes to standard output |
| Proxy.AppendObservations | conpty-proxy/conpty_proxy.c:280-291 | the resize calls and the packets taken over two runs of effects are those of the first run followed by those of the second |
| Proxy.AcceptAfterRead | conpty-proxy/conpty_proxy.c:285-287 | an output packet leaves the accept on the control pipe as it was |
| Proxy.AcceptAfterControl | conpty-proxy/conpty_proxy.c:288-290 | a control packet is taken while an accept is outstanding, and its effects end by re-arming the accept |
| Proxy.AcceptStep | conpty-proxy/conpty_proxy.c:280-291 | after any packet an accept is outstanding again, and no control packet is taken without one |
| Proxy.ControlStep | conpty-proxy/conpty_proxy.c:280-291 | one more packet keeps the stored size and the resize calls equal to `on_ctrl_accept` folded over the control messages, and the packets taken equal to the packets dequeued |
| Proxy.ServeStep | conpty-proxy/conpty_proxy.c:280-291 | one more packet keeps every observation the loop promises |
| Proxy.Serve | conpty-proxy/conpty_proxy.c:272-295 | the loop handles every packet before the first failed wait and exits with -1 exactly there; every packet is taken once, in order; standard output is exactly the output packets' bytes, in order; no write happens while a read into `io_buf` is outstanding, and a read is outstanding after every packet; the stored size and the sizes passed to `ResizePseudoConsole` are exactly those of `on_ctrl_accept` over the control messages, in order, and every resize is positive; each control packet is taken while an accept is outstanding, and the accept is re-armed before the next one |
| Proxy.RepeatedResizeOnce | conpty-proxy/conpty_proxy.c:288-290 | two control packets with the same message cause at most one resize |
| Proxy.ForwardStdin | conpty-proxy/conpty_proxy.c:297-308 | returns -1 exactly when some round fails; the console input receives exactly the chunks before the first failure, in order |
| Proxy.ConsoleInit | conpty-proxy/conpty_proxy.c:116-187 | codes 6 to 10 in step order; on success only the proxy's own pipe ends and the console stay open; on failure no pipe handle stays open |
| Proxy.Spawn | conpty-proxy/conpty_proxy.c:189-233 | codes 11 to 14 in step order; on failure nothing it allocated is held, and on success the shell's process handle is held |
| Proxy.NewHolds | conpty-proxy/conpty_proxy.c:330-397 | nothing is closed on a failure: a `conpty_init` failure leaves exactly its held handles beside the control pipe and the port; a `conpty_spawn` failure after it adds nothing, leaving the console's ends and console; a started session also holds the attribute list, the shell process and the dispatcher; before the control pipe exists nothing is held; the dispatcher is held exactly when it serves |
| Proxy.NewFollowsChecks | conpty-proxy/conpty_proxy.c:330-397 | with the thread check compared against `NULL`, the exit code is the first failing check in source order; the as-written check differs only when the thread fails, and then yields 0 |
| Proxy.ThreadFailureUnnoticed | conpty-proxy/conpty_proxy.c:394-397 | as written, a failed `CreateThread` with every earlier step succeeding yields exit code 0, with no dispatcher serving |
| Proxy.New | conpty-proxy/conpty_proxy.c:330-410 | returns the first failing check's code (1, 2, 3, 4, 15, 5, then 6-14, 17, 18, -1); 0 only with the dispatcher serving and stdin forwarded up to the first failure (with no failing round among those given, 0 stands for a proxy still inside `stdio_run`, which never returns then); a loader failure leaves the loader failed |
| InProcess.Append | conpty.c:153-161 | copies min(read, room) bytes: existing bytes are kept, the copied bytes are a prefix of the read, and the length never exceeds 262144; nothing is dropped when it all fits |
| InProcess.Drain | conpty.c:473-479 | returns everything pending as a string and leaves the buffer empty, or returns `nil` when nothing is pending |
| InProcess.AfterRead | conpty.c:153-169 | one accepted read: the pending bytes grow by a prefix of the read, to at most 262144 bytes; the buffer index flips; one notification is written exactly when the channel is open |
| InProcess.AfterPull | conpty.c:473-479 | a pull leaves nothing pending and adds the pending bytes to what Emacs received, only when they are non-empty; the thread's state is untouched |
| InProcess.PullKeeps | conpty.c:473-479 | a pull keeps the pump invariant |
| InProcess.ReadKeeps | conpty.c:143-169 | an accepted read keeps the pump invariant, with the read's bytes added to the accepted chunks |
| InProcess.PumpStep | conpty.c:136-171 | one pull or read keeps the pump invariant: bounded buffer, bytes conserved, index equal to the parity of the reads, one notification per read |
| InProcess.Pump | conpty.c:130-174 | across interleaved reads and pulls, the buffer stays within capacity; bytes pulled followed by bytes pending equal the initial bytes followed by what was kept of each accepted read; kept pieces are prefixes; nothing is dropped when everything fits; the index is in {0,1}, flipping once per read |
| InProcess.Cleanup | conpty.c:181-236 | does nothing when no state is attached; otherwise releases exactly the open handles plus the lock, leaves no closable field, terminates the shell exactly when its handle was open, and detaches the state |
| InProcess.CleanupIdempotent | conpty.h:66-69 | a second cleanup releases nothing and changes nothing |
| InProcess.CleanupLeavesNothingOpen | conpty.c:196-229 | every handle cleanup closes is also nulled, so cleaning the same record again would release only the lock |
| InProcess.Kill | conpty.c:591-602 | `nil` for a `NULL` terminal; otherwise `t`, with no state attached afterwards |
| InProcess.KillTwice | conpty.h:108-113 | killing twice is the same as killing once |
| InProcess.ReadPending | conpty.c:461-482 | returns exactly the pending bytes and empties the buffer; returns `nil` and changes nothing when nothing is pending or no state is attached |
| InProcess.ReadPendingTwice | conpty.h:80-85 | a second read in a row returns `nil` and changes nothing |
| InProcess.Write | conpty.c:484-528 | guard failures return `nil`; an empty string returns 0 without writing; otherwise exactly the string's bytes, without the terminator, are written, and the reported count is returned |
| InProcess.Resize | conpty.c:530-572 | the primitive is called, once and with the requested size, exactly when nargs >= 3, the term, state and console are present, and both dimensions are positive; the result is `t` exactly when it was called and succeeded |
| InProcess.InitThenUse | conpty.c:484-572 | on a started session, a non-empty write with its buffer allocated sends exactly the string's bytes and replies with the count written, an empty write replies 0, and a positive resize calls the primitive once with that size, replying `t` exactly when it succeeds |
| InProcess.KilledIgnoresIo | conpty.c:493-498 | after a kill, writing and resizing reply `nil` and call nothing |
| InProcess.IsAlive | conpty.c:574-589 | `t` exactly when a shell handle is recorded and its exit code is `STILL_ACTIVE` |
| InProcess.KilledIsNotAlive | conpty.c:578-579 | after a kill, the shell is never reported alive |
| InProcess.Connect | conpty.c:303-369 | the lock, channel, pipes and console step: on success, the lock, the module's pipe ends and the console are held and recorded; on failure nothing is held |
| InProcess.Launch | conpty.c:373-458 | the attribute list, process and thread step, with cleanup on each failure: on success exactly the session's resources are held; on failure nothing is held and no state is attached |
| InProcess.InitTerm | conpty.c:243-458 | `t` exactly when every step succeeds; a rejection before the state is attached leaves the terminal unchanged; a later failure leaves no state attached; failure holds nothing; success holds exactly what cleanup later releases |
| InProcess.InitThenKill | conpty.h:30-38 | a session that started and is then killed returns every resource it held, and terminates its shell |

## Left out

- Win32 calls are oracle inputs, not behaviour. This covers pipes, files, completion ports, processes, threads, `VirtualAlloc`/`VirtualFree`, `LoadLibraryA`/`GetModuleHandleA`/`GetProcAddress`, and Emacs' `open_channel`, `copy_string_contents` and `make_string`. Which kernel32 symbol fails, the bytes a read returns, and the count `WriteFile` reports are all inputs.
- Concurrency is not modelled. This covers the dispatcher and output threads, the critical section, `Interlocked*` and the 2-second `WaitForSingleObject`. Each thread is a sequential step function over an event sequence.
- Not modelled because they are I/O only:
  - the debug log in `conpty.c`;
  - `usage`, `setup_console` and `wmain`'s action dispatch in the proxy;
  - the `printf` calls in `conpty_resize`.
- Not modelled because they are library behaviour:
  - UTF-8 to UTF-16 conversion;
  - `_wtoi`;
  - `extract_integer`;
  - the `(SHORT)` casts into `COORD`.
  Stored sizes are unbounded `int` values.
- ResizeMessage.ScanSize: values outside the C `int` range are kept unbounded rather than given `sscanf`'s undefined result.
- Proxy.OnCtrlAccept: the 64-byte buffer is never NUL-terminated, and the model parses only the bytes the read returned. What `sscanf_s` sees past them is undefined.
- Raw pointer arithmetic, the `sizeof(arena_t)` header and the unused `mmap` macros are replaced by `(block, offset)` pairs.
- Arena.Place: the header sum `sizeof(arena_t) + block_size` is not wrapped to 64 bits. As written, a capacity within 32 bytes of 2^64 wraps the sum, `VirtualAlloc` is asked for a few bytes, and the block still records the huge capacity. The model has no header and asks for the capacity itself.
- GrowthArena.Alloc: the header sum `sizeof(arena_t) + block_size` at arena.c:59 is not wrapped, as for `Arena.Place`; the fit check's wrap is a Finding, and the model uses the unwrapped check.
- FixedArena.Alloc: the header sum `sizeof(arena_t) + block_size` at conpty-proxy/arena.c:26 is not wrapped, as for `Arena.Place`; the fit check's wrap is a Finding, and the model uses the unwrapped check.
- GrowthArena.NextBlockSize: `2 * last_block_size` is not wrapped to 64 bits. The wrap needs a previous block over 2^63 bytes, and even then the capacity stays at least the request.
- InProcess.InitTerm:
  - The descriptor from `open_channel` is kept in the state, but it is not tracked as a resource. No path in the source closes it.
  - When a state is already attached, it is overwritten without cleanup, and the model does not track the old state's resources.
  - `hpc` is written by a failed `CreatePseudoConsole` only through an output parameter, so the model leaves it `NULL` on that path.
- InProcess.Write: the model assumes the `WriteFile` count is at most the bytes requested, as the OS guarantees.
- `vterm-module.h` holds declarations only. Its `Term` is reduced to the `conpty` field.
- `tests/test-conpty-pipe.c` is a pipe client harness. Its message format only confirms the round-trip property.

## Findings

| source | as written | input that shows it | evidently intended | confidence | as-written member | corrected member |
|---|---|---|---|---|---|---|
| conpty-proxy/conpty_proxy.c:394-397 | `CreateThread`'s result is compared with `INVALID_HANDLE_VALUE`, but it returns `NULL` on failure, so a failed thread start is never detected | every step succeeds except `CreateThread`: the proxy forwards stdin and exits 0, while nothing forwards output or resizes | compare with `NULL` and return -1 | not executed | Proxy.ThreadFailureUnnoticed | Proxy.New |
| arena.c:43 | `(size + 7) & ~7` wraps in 64-bit `size_t` | a request of 2^64 - 1 bytes rounds to 0, and the allocation succeeds while reserving nothing | reject requests above 2^64 - 8, or round without overflow | not executed | Arena.Align8AsWrittenLosesRequest | Arena.Align8 |
| arena.c:48 | the fit check `used + size > size` is computed in 64-bit `size_t` and wraps (also conpty-proxy/arena.c:22) | a head block of 64 bytes with 8 used, and a request rounding to 2^64 - 8: the sum wraps to 0, the check passes, the request is served from the head, and the cursor wraps to 0, so the next request overlaps the 8 bytes already handed out | compare `size > arena->size - arena->used`, which cannot wrap | not executed | Arena.FitCheckAsWrittenWraps | Arena.Place |
