# BGGP5 UEFI programs: a Dafny model

The BGGP5 entry downloads the file at `https://binary.golf/5/5` from a UEFI
application and prints it. This project models two parts of it and proves
properties about both:

* **The code-layout optimiser** (`uefi/minimize.py`). It spreads the
  application's instructions over unused holes of the PE header. Each hole
  ends in a JMP to the next one, and a JMP costs 2 bytes (short) or 5 bytes
  (near). The optimiser searches for an order of the holes and a size for the
  ENTRY region that waste the fewest bytes. Instructions are modelled by their
  lengths only (module `Layout`).
* **The `UefiMain` of three UEFI variants.** Each one is a linear sequence of
  firmware calls with `goto`-based cleanup:
  * `BGGP5_Raw_v1.c`: raw HTTP protocol, asynchronous tokens, two bounded
    poll loops (module `RawV1`);
  * `BGGP5_Raw_v3.c`: raw HTTP protocol, synchronous (module `RawV3`);
  * `BGGP5_HttpIoLib.c`: EDK II's HttpIoLib (module `HttpIoLib`).

  Module `Efi` holds what the three share: status codes, the call log and
  the tokens and buffers the calls refer to.

In the firmware models, every firmware or library call is an oracle. A
`Firmware` value holds what each call returns. Each `UefiMain` is a method
that follows the source's control flow: each `goto` is a `break` out of a
labelled block. The method returns the status and the log of the calls it
made, and is proved equal to a function that describes the same run stage
by stage (`Behaviour`, or `Run` in v1). The properties are lemmas about that
function.

In v1:

* The two callback flags are fields of a `Flags` object. Only the
  callbacks set them, and the callbacks run only inside `Poll`.
* Each wait loop reads a finite trace of what each pass observes: whether
  `Poll` signalled the event, and what `GetTime` returned.
* Each wait loop is a `while` loop of its own (`WaitFor`). It is proved
  against the recursive function `Wait`.

## Reference definitions

The contracts in the table below are stated against these definitions:

- `Layout.EntryWaste` (uefi/minimize.py:105-108): the bytes one entry loses, `jmp_sz - 2 + rem_sz`. `Layout.Waste` sums it over every entry but the last.
- `Layout.Completes` (uefi/minimize.py:83-117): the schedules the search can build, one greedily filled entry per candidate chunk chosen, the last chunk taking what remains.
- `Layout.Assigns` (uefi/minimize.py:79-81): any assignment of the instructions to an order of the chunks that `solve` may visit. Each entry but the last holds some prefix of the remaining instructions, not necessarily the longest, that fits in its chunk beside the JMP. The last chunk takes the rest.
- `RawV3.Behaviour` (uefi/c/BGGP5_Raw_v3.c:77-137) and `HttpIoLib.Behaviour` (uefi/c/BGGP5_HttpIoLib.c:80-167): the status and call log of a run, stage by stage, with the releases newest first.
- `RawV1.Run` (uefi/c/BGGP5_Raw_v1.c:111-296): the two phases `Requested` and `Fetched`, then `RawV1.Cleanup` (uefi/c/BGGP5_Raw_v1.c:290-296), the cleanup labels. A run ends `Returned` with a status and log, or `Waiting` when a wait loop's trace runs out.

## Model

| member | source | states |
|---|---|---|
| Layout.JmpSize | uefi/minimize.py:38-49 | A JMP is 2 or 5 bytes. It is 2 exactly when the displacement from the end of a 2-byte JMP is strictly between -0x80 and 0x80, in either direction. |
| Layout.ChunkJmpSize | uefi/minimize.py:52-57 | The JMP from `src` to `dst` is a JMP placed in the last two bytes of `src`. It is short exactly when `dst` starts less than 0x80 bytes from the end of `src`, either way. |
| Layout.Sum | uefi/minimize.py:146 | Total instruction length, `sum(map(len, insns))`: never negative. |
| Layout.Take | uefi/minimize.py:60-72 | The greedy fill takes at most all instructions. Its leftover lies between 0 and the budget whenever the budget is non-negative. |
| Layout.TakeFills | uefi/minimize.py:60-72 | The greedy fill takes `n <= len(insns)` instructions. The first `n` lengths sum to `size - rem`, and `rem >= 0` once anything is taken. When `n < len(insns)`, the next instruction is longer than `rem`. An empty list gives `(0, size)`. |
| Layout.FillsUnique | uefi/minimize.py:65-72 | Those conditions determine `n` and `rem`: no other split has them. |
| Layout.TakeInsns | uefi/minimize.py:60-72 | The `for` loop that subtracts the lengths returns exactly the greedy fill. |
| Layout.CompletesPlaces | uefi/minimize.py:83-117 | Every schedule the search can build visits the current chunk and then each remaining chunk once (a permutation of the remaining chunks), with the last chunk last. Its entries, concatenated, are the instructions in order. Every entry but the last is greedily filled beside its JMP. |
| Layout.PackedEntriesFit | uefi/minimize.py:96-103 | In every non-final entry of such a schedule, the instruction bytes plus the outgoing JMP fit in the chunk, and the entry's waste is non-negative. |
| Layout.PackedWasteNonNegative | uefi/minimize.py:105-108 | The waste of such a schedule is non-negative. |
| Layout.Candidates | uefi/minimize.py:91-94 | The search tries all chunks but the last, or the last when it is the only one left. At least one is tried when any remain. |
| Layout.BestCost | uefi/minimize.py:83-129 | Reference: the least cost of completing a schedule from `cur` with no pruning, `Inf` when no order fits. It is never below the cost already spent. |
| Layout.BestFrom | uefi/minimize.py:94-121 | Reference: the least cost over the candidates from index `i` on, never below the cost already spent. |
| Layout.Branch | uefi/minimize.py:95-117 | Reference: the least cost when `chunks[i]` comes next. It is `Inf` when the chunk cannot hold the JMP, and never below the cost already spent. |
| Layout.BestFromBelowBranch | uefi/minimize.py:94-121 | The minimum over the candidates from `j` on is no worse than any single candidate among them. |
| Layout.GreedyCatchesUp | uefi/minimize.py:60-72 | Greedy filling from position `k` reaches at least position `m` whenever the first `m` instructions fit in the budget. |
| Layout.CompletesAssigns | uefi/minimize.py:83-117 | Every schedule the search can build is an assignment in the sense of `Assigns`. |
| Layout.GreedyStaysAhead | uefi/minimize.py:79-129 | Started `k` instructions further on, the exhaustive search wastes at most what assignment `t` wastes plus the bytes of those `k` instructions. Each greedy entry reaches at least as far as `t`'s entry in the same chunk. |
| Layout.BestCostOptimal | uefi/minimize.py:79-129 | No assignment of the instructions to an order of the chunks, greedy or not, wastes fewer bytes than `BestCost`: the minimal waste `solve`'s docstring promises. |
| Layout.StepWaste | uefi/minimize.py:96-108 | The first entry holds the greedy fill, and its waste is `jmp_sz - 2 + rem_sz`, the amount `solve` adds to the cost. |
| Layout.ExtendCompletion | uefi/minimize.py:112-117 | Putting a greedily filled entry in front of a schedule built from the next chunk gives a schedule built from the current chunk. |
| Layout.ExtendResult | uefi/minimize.py:108-117 | What a recursive `solve` call finds, extended by the current entry, is a schedule from the current chunk. The cost it returns is that schedule's waste. |
| Layout.Solve | uefi/minimize.py:75-129 | With no chunks left, the last chunk takes all remaining instructions. Otherwise the returned cost is the least of `min_cost` and the exhaustive minimum: pruning and the early stop at 0 lose nothing. A schedule is returned exactly when it beats `min_cost`. It extends the partial schedule by one the search can build, and its waste is the returned cost. |
| Layout.TryChunk | uefi/minimize.py:95-121 | One iteration of the loop: skips a chunk that cannot hold the JMP, or whose cost already reaches `min_cost`. The found cost is the candidate's exhaustive cost capped by `min_cost`. A schedule is returned only when it beats the bound. |
| Layout.BestLayout | uefi/minimize.py:145-161 | Reference: the least cost over all ENTRY sizes below `e`, never negative. |
| Layout.BestLayoutStaysZero | uefi/minimize.py:157-161 | Once some ENTRY size reaches cost 0, trying more sizes keeps the minimum at 0, so stopping early loses nothing. |
| Layout.Minimize | uefi/minimize.py:132-165 | A schedule is returned exactly when some ENTRY size below the total instruction length has a layout. It is a layout for its ENTRY size, placed at `entry_offset` with AHEAD right after ENTRY and last. Its waste is the least over all those sizes. |
| Layout.BestLayoutOptimal | uefi/minimize.py:135-156 | No assignment of the instructions to ENTRY of any size below `e`, then the chunks in an order the search may take and AHEAD last, wastes fewer bytes than `BestLayout`: the minimal waste `minimize`'s docstring promises. |
| RawV3.Made | uefi/c/BGGP5_Raw_v3.c:78-130 | The calls before the cleanup labels neither free the body nor destroy the child. |
| RawV3.StageIsFirstFailure | uefi/c/BGGP5_Raw_v3.c:78-128 | The stage at which the run stops is the first failing call. |
| RawV3.UefiMain | uefi/c/BGGP5_Raw_v3.c:77-137 | The control flow, with its cleanup labels, returns the status and call log that `Behaviour` gives. |
| RawV3.CallMadeIff | uefi/c/BGGP5_Raw_v3.c:78-124 | Each of the seven calls is made exactly when every earlier call succeeded. So the buffer is allocated only after `Request` succeeds, and `Response` is issued only after the allocation succeeds. |
| RawV3.StatusOfFirstFailure | uefi/c/BGGP5_Raw_v3.c:78-137 | The returned status is that of the first failing call. |
| RawV3.SuccessPrints | uefi/c/BGGP5_Raw_v3.c:124-137 | Every call succeeds exactly when the body is printed, and exactly when the returned status (`Response`'s) is not an error. |
| RawV3.ChildDestroyedOnce | uefi/c/BGGP5_Raw_v3.c:83-135 | `DestroyChild` is called exactly when `LocateProtocol` and `CreateChild` succeeded, then as the last call and nowhere before it. |
| RawV3.BodyFreedOnce | uefi/c/BGGP5_Raw_v3.c:117-135 | The body is freed exactly when its allocation succeeded, then just before `DestroyChild` and nowhere else: released in reverse order of acquisition. |
| RawV3.ResponseCapacity | uefi/c/BGGP5_Raw_v3.c:69-124 | The buffer given to `Response` is the one allocated, with the declared capacity 0x1000. |
| HttpIoLib.Made | uefi/c/BGGP5_HttpIoLib.c:81-155 | The calls before the cleanup labels free nothing and destroy no HttpIo. |
| HttpIoLib.StageIsFirstFailure | uefi/c/BGGP5_HttpIoLib.c:81-152 | The stage at which the run stops is the first failing check. |
| HttpIoLib.UefiMain | uefi/c/BGGP5_HttpIoLib.c:80-167 | The control flow, with its cleanup labels, returns the status and call log that `Behaviour` gives. |
| HttpIoLib.LocateFailure | uefi/c/BGGP5_HttpIoLib.c:88-167 | A failed `LocateHandleBuffer` returns its status. Nothing else is called or freed. |
| HttpIoLib.NoControllers | uefi/c/BGGP5_HttpIoLib.c:93-165 | Zero controllers gives `EFI_NOT_FOUND` and creates no HttpIo. The controllers buffer is freed unless the pointer is NULL. |
| HttpIoLib.FirstControllerUsed | uefi/c/BGGP5_HttpIoLib.c:102-107 | The HttpIo is created on `Controllers[0]` whatever the controller count. |
| HttpIoLib.HttpIoDestroyedOnce | uefi/c/BGGP5_HttpIoLib.c:105-162 | `HttpIoDestroyIo` is called exactly once when `HttpIoCreateIo` was reached and succeeded, and never otherwise. |
| HttpIoLib.AllocationFailure | uefi/c/BGGP5_HttpIoLib.c:132-162 | A failed allocation gives `EFI_OUT_OF_RESOURCES` and skips `HttpIoRecvResponse`. The HttpIo is still destroyed once. |
| HttpIoLib.BodyFreedOnce | uefi/c/BGGP5_HttpIoLib.c:132-160 | The body is freed exactly once when its allocation succeeded, and never otherwise. |
| HttpIoLib.BadStatusCode | uefi/c/BGGP5_HttpIoLib.c:148-160 | A status code other than `HTTP_STATUS_200_OK` gives `EFI_ABORTED`. The body is not printed but is freed once. |
| HttpIoLib.ResponseCapacity | uefi/c/BGGP5_HttpIoLib.c:132-140 | The receive uses the buffer allocated, whose declared capacity is 0x1000. |
| HttpIoLib.SuccessPrints | uefi/c/BGGP5_HttpIoLib.c:140-155 | Every check succeeds exactly when the body is printed. The status is then `HttpIoRecvResponse`'s, which is not an error. |
| RawV1.Flags.constructor | uefi/c/BGGP5_Raw_v1.c:23-24 | Both completion flags start FALSE. |
| RawV1.Flags.RequestCallback | uefi/c/BGGP5_Raw_v1.c:26-35 | Sets the request flag and leaves the response flag alone. |
| RawV1.Flags.ResponseCallback | uefi/c/BGGP5_Raw_v1.c:38-47 | Sets the response flag and leaves the request flag alone. |
| RawV1.PollHttp | uefi/c/BGGP5_Raw_v1.c:205-264 | `Poll` sets a flag only when the event of the token it waits for fires, and only that token's flag. |
| RawV1.Wait | uefi/c/BGGP5_Raw_v1.c:204-214 | A wait loop calls only `Poll` and `GetTime`. |
| RawV1.ChangesStep | uefi/c/BGGP5_Raw_v1.c:210-213 | Pass `k` adds one to the timer exactly when its `GetTime` succeeded with a Second other than Base's after the passes before it, and adds nothing otherwise. Base becomes that pass's Cur exactly then. |
| RawV1.PollBeforeTest | uefi/c/BGGP5_Raw_v1.c:205-267 | Every pass calls `Poll` before it tests the flag. `GetTime` follows only when the flag is unset. The loop completes exactly when it ends on a `Poll`. |
| RawV1.WaitStops | uefi/c/BGGP5_Raw_v1.c:204-214 | The loop stops only when the flag is set before the timer reaches the maximum, or when the timer reaches it. The timer counts exactly the passes whose `GetTime` succeeded with a new second. |
| RawV1.WaitFor | uefi/c/BGGP5_Raw_v1.c:204-273 | The `for` loop makes exactly the calls `Wait` describes. Its flag is set on exit exactly when it completed, and the other flag is unchanged. |
| RawV1.Made | uefi/c/BGGP5_Raw_v1.c:111-201 | The calls before the request wait are all setup calls. |
| RawV1.Requested | uefi/c/BGGP5_Raw_v1.c:111-227 | The first phase goes to `out` exactly when `LocateHandleBuffer` failed. It gets through exactly when setup succeeded and the request callback ran within the wait. |
| RawV1.Asked | uefi/c/BGGP5_Raw_v1.c:229-260 | The calls between the two waits are the 0x1000-byte allocation, the response `CreateEvent`, `Response` on that buffer and `GetTime`. |
| RawV1.Fetched | uefi/c/BGGP5_Raw_v1.c:229-288 | The second phase never goes to `out`. It goes to `out_free_controllers` exactly when the allocation or the response `CreateEvent` failed. It issues `Response` exactly when both succeeded. |
| RawV1.SendRequest | uefi/c/BGGP5_Raw_v1.c:111-227 | The code up to the request timeout does what `Requested` says. The request flag is set exactly when the phase gets through. |
| RawV1.ReceiveResponse | uefi/c/BGGP5_Raw_v1.c:229-288 | The code from the allocation to the print does what `Fetched` says. Afterwards the response flag is set exactly when the phase gets through, and the request flag is unchanged. |
| RawV1.UefiMain | uefi/c/BGGP5_Raw_v1.c:111-296 | The whole control flow, with its cleanup labels, ends as `Run` says. |
| RawV1.CleanupLog | uefi/c/BGGP5_Raw_v1.c:290-296 | The cleanup labels only append releases and return the status they are given. |
| RawV1.RequestedCalls | uefi/c/BGGP5_Raw_v1.c:111-227 | The first phase calls `Cancel` on the request token exactly when the request wait timed out, and then leaves `EFI_TIMEOUT`. |
| RawV1.FetchedCancel | uefi/c/BGGP5_Raw_v1.c:275-286 | The second phase calls `Cancel` on the response token exactly when the response wait timed out, and then leaves `EFI_TIMEOUT`. |
| RawV1.FetchedPrint | uefi/c/BGGP5_Raw_v1.c:262-288 | The second phase prints the body, with the reported length, exactly when the response wait completed. |
| RawV1.FetchedSizes | uefi/c/BGGP5_Raw_v1.c:103-250 | The body is allocated with the declared capacity 0x1000, and `Response` is given that buffer. |
| RawV1.LocateFailure | uefi/c/BGGP5_Raw_v1.c:119-296 | A failed `LocateHandleBuffer` returns its status, with no other call and nothing freed. |
| RawV1.NoControllers | uefi/c/BGGP5_Raw_v1.c:119-296 | Zero NICs gives `EFI_NOT_FOUND`. Only the controllers buffer is freed, unless its pointer is NULL. |
| RawV1.ControllersFreed | uefi/c/BGGP5_Raw_v1.c:119-296 | After a successful `LocateHandleBuffer`, every exit frees the controllers buffer (unless its pointer is NULL), as the last call and only there. After a failed one, the buffer is never freed. |
| RawV1.FetchOnlyAfterSent | uefi/c/BGGP5_Raw_v1.c:191-234 | No response-side call (allocation, response event, `Response`, print, response `Cancel`) is made unless the request was sent in time. |
| RawV1.RequestTimeout | uefi/c/BGGP5_Raw_v1.c:216-227 | A request not sent in time is cancelled exactly once, returns `EFI_TIMEOUT`, and leads to no response-side call. |
| RawV1.ResponseTimeout | uefi/c/BGGP5_Raw_v1.c:275-286 | A response not received in time is cancelled exactly once and returns `EFI_TIMEOUT`. The body is not printed. |
| RawV1.BodyFreedOnce | uefi/c/BGGP5_Raw_v1.c:250-291 | Once `Response` has been issued, every exit frees the body buffer exactly once. Before that it is never freed. |
| RawV1.ResponseBufferLeak | uefi/c/BGGP5_Raw_v1.c:230-296 | When the response `CreateEvent` fails after a successful allocation, the run returns that failure without freeing the body buffer. |
| RawV1.ResponseCapacity | uefi/c/BGGP5_Raw_v1.c:103-250 | Every allocation is 0x1000 bytes, and `Response` fills a buffer that was allocated with its capacity. |
| RawV1.ChildNeverDestroyed | uefi/c/BGGP5_Raw_v1.c:150-296 | The child handle is never destroyed, on any path. |
| RawV1.SuccessPrints | uefi/c/BGGP5_Raw_v1.c:262-288 | The body is printed, with the reported length, exactly when every check passed and both callbacks ran in time. The status is then the second `GetTime`'s, which is not an error. |
| RawV1.CancelOnlyOnTimeout | uefi/c/BGGP5_Raw_v1.c:216-286 | Each token is cancelled exactly when its wait timed out. A run that cancels returns `EFI_TIMEOUT`. |
| RawV1.CancelStatusIgnored | uefi/c/BGGP5_Raw_v1.c:219-284 | Whatever the two `Cancel` calls return, the run is the same. |

## Left out

- `uefi/run.py` is not part of this model: it launches QEMU and talks to it over sockets and files.
- `BGGP5_Raw_v4.c` is not part of this model: it has no error checks and no cleanup.
- `main` of `minimize.py` is left out. It does the build, the instruction decoding (iced_x86), the prolog and epilog trimming and the assembly output. All of that is I/O or foreign code. The model takes the instruction lengths as input.
- Instruction contents are left out: only `len(insn)` matters to the optimiser.
- `float('inf')` is modelled as the bound `Inf`, not as a floating-point value.
- Layout.Minimize: returns `None` where the source's `assert best_schedule is not None` raises.
- Layout.Solve: the schedule found is extended by a ghost `tail` that names the part the search built. The source keeps no such value.
- `Print` and the formatting of the body are left out. Printing is logged as a `PrintBody` call with the body length.
- The firmware, HttpIoLib, the HTTP and TLS stacks are oracles. So are the delivery of events and the progress `Poll` makes. `GetTime` is an oracle that returns a status and a Second value; no real clock is modelled.
- The NULL test on `Controllers` at `out_free_controllers` is an oracle bit: whether a successful `LocateHandleBuffer` leaves `Controllers` NULL. A failed call never reaches that test.
- The model does not represent the NULL dereference of `Controllers[0]` when `controllersNull` holds with handles present. There the source's behaviour is undefined; the model runs on as if `Controllers[0]` were readable.
- RawV1.Wait: a wait loop reads a finite trace. When the trace runs out before the flag is set or the timer reaches 5, the run ends as `Waiting`, and the model says nothing about what happens later. The source loop can spin forever when the clock never changes second.
- RawV1.BodyFreedOnce: requires the run to have returned; a run still `Waiting` in a loop has not reached any exit.
- RawV1.UefiMain: the source's single function is split into two phase methods, `SendRequest` and `ReceiveResponse`, joined by the cleanup labels.
- In v1, the events, the child handle and the HttpProtocol opened `BY_DRIVER` are never released by the source. The model states this for the child (`ChildNeverDestroyed`) and claims no balance for the others.
- Event creation and the `Controllers[0]` handle passed to v1's second `OpenProtocol` are recorded only as calls. The event parameters (TPL, notify type) are not modelled.
- The 64-bit `UINTN` status is a bounded integer; no arithmetic on statuses happens in the source, so wrap-around does not arise.
