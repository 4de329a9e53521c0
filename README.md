# parallel-fetch: the per-worker connection engine

parallel-fetch drives many concurrent HTTP fetches against one server.
Each worker thread owns a fixed array of `no_agents` agent slots
(`pf_ctx_t`). It runs a loop until `no_connections` fetches have
completed. Three word-array bitmaps track the slots, each with a counter:

- `has_sock`: the slot holds a socket.
- `need_conn`: the socket is open but not yet connected.
- `did_conn`: the slot is connected and takes part in I/O.

Every iteration of the loop runs the same phases in order:

1. Open a socket on every free slot, lowest first.
2. Connect the waiting slots, lowest first, stopping at the first failure.
3. Build the `select()` interest sets from the connected slots.
4. Wait in `select()`.
5. Serve the ready slots through the HTTP handlers, retiring each slot that closes.

The Dafny project models this engine, the bitmap primitives under it, the
slot lifecycle, and the HTTP handlers' bookkeeping. `Bitops`, `Context`,
`HttpRequest`/`Http` and `Run` follow one C file each; `Ledger` and
`Outcomes` are the value-level parts of pf_run.c that `Run` is proved
against.

- `bitops.dfy` (`Bitops`): `pf_bitops.h`. `test_bit`, `set_bit`,
  `clear_bit` and the two find loops work on `bv64` words, with
  `BITS_PER_LONG` fixed at 64. Each proof states what the operation does
  to the set of bit numbers a mask stands for (`Members`, `Mask`).
- `ledger.dfy` (`Ledger`, part of pf_run.c): the bookkeeping invariant of
  `pf_state_t`, on values. Each bitmap stands for a set of slots and each counter counts
  its set. `need_conn` and `did_conn` partition `has_sock` (`Part`,
  `Books`). One lemma per state change shows that change keeps the invariant, and
  `SetBoth`, `MoveBit` and `ClearBoth` are the pairs of bit updates each
  change makes.
- `conf.dfy` (`Config`): `pf_conf_t` and `Ret`. `Ret` is the result of a C
  function that may `BAIL`: either its return code, or `Abort` when the
  process exits.
- `ctx.dfy` (`Context`): `pf_ctx_t` as a class, with `pf_ctx_init`,
  `pf_ctx_reset`, `pf_ctx_socket` (declared as `pf_ctx_new`),
  `pf_ctx_connect` and `pf_ctx_close`.
- `http.dfy` (`HttpRequest`, `Http`): the request `http_init` builds, and
  `http_connected`, `http_recv`, `http_send` and `http_closing`.
- `outcomes.dfy` (`Outcomes`, part of pf_run.c): the inputs of one
  iteration, what one pass of `pf_state_perform_io` decides for one slot
  (`IoOutcome`) and leaves in it (`AfterIo`), and the count of retired
  slots.
- `run.dfy` (`Run`): `pf_state_t` as a class. The three bitmaps are
  `array<bv64>` fields updated in place. The engine's phases are methods
  with loops, and `pf_run`'s main loop is `PfRun`.

Nothing outside the process is performed. What `socket()`, `connect()`,
`select()`, `read()` and `write()` return is a parameter, given per slot
and per iteration (`Round`). Descriptors in the `select()` sets are
identified with the slots that own them. `select()` leaves each set an
arbitrary subset of what was asked for. A `BAIL` (`exit(-1)`) is the
`Abort` outcome of the method it happens in, and ends `PfRun` with `Aborted`.
The one exception is the `BAIL` in `pf_ctx_connect`: the engine runs with
the corrected call instead (see the last item below and the first row
under "## Findings").

The code is in the middle of a refactor. The model settles the
inconsistencies as follows:

- `pf_ctx_new` (pf_ctx.h:25, pf_run.c:215) is `pf_ctx_socket` (pf_ctx.c:33).
- `pf_ctx_init` takes the conf and the stat record. The stat record is a
  parameter of `Run.State`'s constructor, because pf_run.c:173 passes only
  the conf.
- `ctx->stat` and `ctx->state` are fields of `Ctx`, though pf_ctx.h does not
  declare them.
- `find_first_bit` and `find_first_zero_bit` from `<asm/bitops.h>` behave
  as `my_find_first_bit` and `my_find_first_zero_bit`.
- `max_fd` is unsigned (pf_run.c:33) and is compared with the signed
  `ctx->fd` (pf_run.c:309). The model compares integers. The two agree
  because every connected slot holds a descriptor `>= 0`
  (`Run.State.ConnectedHaveDescriptors`, from the invariant `Valid`).
- `pf_ctx_connect` BAILs when connect() fails (pf_ctx.c:50-52), which
  leaves the failure branch of pf_state_create_connections dead.
  `Ctx.Connect` models it as written. The engine (`ConnectLowest`, and
  through it `ConnectNext`, `CreateConnections`, `Establish` and `PfRun`)
  uses the corrected `Ctx.ConnectReported`, which hands the failure back,
  so dropped slots and `no_failed` are modelled.

## Model

| member | source | states |
|---|---|---|
| Bitops.MaskIsOneBit | pf_bitops.h:12 | BITOP_MASK(nr) is a word with exactly one bit set, the bit at position `nr % 64` |
| Bitops.WordHoldsBit | pf_bitops.h:13 | BITOP_WORD(nr) is the index `w` of the word whose 64 bits, `64w` to `64w + 63`, include bit `nr` |
| Bitops.TestBit | pf_bitops.h:20-23 | test_bit is 1 exactly when bit `nr % 64` of word `nr / 64` is set, and 0 exactly when it is clear |
| Bitops.SetBit | pf_bitops.h:34-40 | the array after set_bit is the old words with BITOP_MASK(nr) or-ed into word BITOP_WORD(nr) |
| Bitops.ClearBit | pf_bitops.h:42-48 | the array after clear_bit is the old words with word BITOP_WORD(nr) and-ed with the complement of the mask |
| Bitops.WithBitSet | pf_bitops.h:34-40 | the words set_bit(nr) leaves, as many as before; SetBitEffect and SetMembers state which bits they hold |
| Bitops.WithBitCleared | pf_bitops.h:42-48 | the words clear_bit(nr) leaves, as many as before; ClearBitEffect and ClearMembers state which bits they hold |
| Bitops.SetBitEffect | pf_bitops.h:34-40 | after set_bit(nr), test_bit(nr) is 1 and test_bit of every other bit number is what it was |
| Bitops.ClearBitEffect | pf_bitops.h:42-48 | after clear_bit(nr), test_bit(nr) is 0 and test_bit of every other bit number is what it was |
| Bitops.SetBitIdempotent | pf_bitops.h:39 | set_bit twice leaves the words as set_bit once |
| Bitops.ClearBitIdempotent | pf_bitops.h:47 | clear_bit twice leaves the words as clear_bit once |
| Bitops.FindFirstBit | pf_bitops.h:58-66 | the result is at most `max`; every bit below it is clear, and when it is below `max` its bit is set, so it is the lowest set bit or `max` |
| Bitops.FindFirstZeroBit | pf_bitops.h:68-76 | the result is at most `max`; every bit below it is set, and when it is below `max` its bit is clear, so it is the lowest clear bit or `max` |
| Bitops.MemberIff | pf_bitops.h:12-13 | a number is in the set a mask stands for exactly when it is in range and its bit (word `nr / 64`, position `nr % 64`) is set |
| Bitops.MaskMember | pf_bitops.h:20-23 | below the slot count, a slot is in the set a mask stands for exactly when its bit is set |
| Bitops.SetMembers | pf_bitops.h:34-40 | set_bit(nr) adds exactly `nr` to the set of set bits |
| Bitops.ClearMembers | pf_bitops.h:42-48 | clear_bit(nr) removes exactly `nr` from the set of set bits |
| Bitops.ZeroMask | pf_run.c:161-168 | zero-filled words, as calloc returns them, stand for the empty set of slots |
| Ledger.MaskWords | pf_run.c:159 | `2 + no_agents / 64` words hold more bits than there are agents |
| Ledger.TallyCard | pf_run.c:43-51 | for a set of slots below `n`, the counter that tallies it equals its cardinality |
| Ledger.LowestFree | pf_run.c:204-209 | on a has_sock mask for fewer than no_agents slots, find_first_zero_bit yields a slot below no_agents with no socket, and every lower slot has one (the BAIL cannot happen) |
| Ledger.LowestMember | pf_run.c:245-251 | on a need_conn mask with a member, find_first_bit yields its lowest member (the BAIL cannot happen) |
| Ledger.PartOpen | pf_run.c:219-223 | adding a free slot to has_sock and need_conn, with both counters up by one, keeps the counters equal to the set sizes and need/did a partition of has |
| Ledger.PartConnect | pf_run.c:275-279 | moving a waiting slot from need_conn to did_conn, one counter down and one up, keeps the partition |
| Ledger.PartDropWaiting | pf_run.c:263-266 | removing a waiting slot from has_sock and need_conn keeps the partition and both counters positive before the decrement |
| Ledger.PartDropConnected | pf_run.c:387-390 | removing a connected slot from has_sock and did_conn keeps the partition and both counters positive before the decrement |
| Ledger.BooksOpen | pf_run.c:219-223 | set_bit on has_sock and need_conn for a free slot keeps each mask standing for its set and the partition |
| Ledger.BooksConnect | pf_run.c:275-279 | clear_bit on need_conn and set_bit on did_conn for a waiting slot keep the masks and the partition |
| Ledger.BooksDropWaiting | pf_run.c:263-266 | clear_bit on has_sock and need_conn for a waiting slot keep the masks and the partition |
| Ledger.BooksDropConnected | pf_run.c:387-390 | clear_bit on has_sock and did_conn for a connected slot keep the masks and the partition |
| Ledger.SetBoth | pf_run.c:219-223 | set_bit(i) on has_sock and on need_conn: each array becomes its old words with bit i set, and did_conn is untouched |
| Ledger.MoveBit | pf_run.c:275-279 | clear_bit(i) on need_conn, then set_bit(i) on did_conn: the first loses bit i, the second gains it, and has_sock is untouched |
| Ledger.ClearBoth | pf_run.c:263-266 | clear_bit(i) on has_sock and on a second mask (need_conn here, did_conn at pf_run.c:387-390): both lose bit i, and the third mask is untouched |
| Outcomes.FirstFailure | pf_run.c:236-270 | the slot where a lowest-first walk over the candidates stops: a candidate whose call failed with every lower candidate succeeding, or `n` when none failed |
| Outcomes.FirstFailureStep | pf_run.c:256-269 | visiting the next candidate, it is the first failure exactly when its call failed; otherwise the first failure lies above it |
| Outcomes.IoOutcome | pf_run.c:357-396 | the outcome of one slot in pf_state_perform_io; the process ends (Fault) only for a slot select() put in the exception set, or that was writable and wanted to send with nothing sent and no request |
| Outcomes.IoOutcomes | pf_run.c:352-397 | one outcome per slot, each from that slot's readiness, send state and read/write results (SlotIo) |
| Outcomes.FaultReported | pf_run.c:370-379 | if some slot's outcome ends the process, select() reported some slot in the exception set, or writable while it had no request |
| Outcomes.KeptSlotProgress | pf_run.c:357-379 | a slot that stays open keeps its descriptor and request; when readable, read() returned a positive count and recv_cnt/recv_bytes grew by it; when writable and wanting to send, the whole request went out in one write, send_cnt is 1 and it wants nothing more; otherwise its send state is unchanged |
| Outcomes.RetiredSlotIsReset | pf_run.c:381-396 | a slot that closes ends as pf_ctx_reset leaves it (AfterIo): fd -1, nothing to send, counters zero, same conf and stat |
| Outcomes.CompletedIffCleanEof | pf_run.c:357-364 | a slot counts as completed exactly when it was readable and read returned 0 |
| Outcomes.ClosingSkipsSend | pf_run.c:366-379 | once read returned 0 or less, the write set, the exception set and the write result do not change the outcome |
| Outcomes.ExceptionOnOpenSlotFaults | pf_run.c:375-379 | a slot in the exception set is never kept: it closes, or the process ends |
| Outcomes.NotReadyIsKept | pf_run.c:357-379 | a slot select() reported in no set is kept unchanged |
| Outcomes.Count | pf_run.c:392-395 | the number of slots with an outcome is at most the number of slots, and 0 exactly when no slot had it |
| Outcomes.RetiredCount | pf_run.c:392-395 | the number of retired slots equals the completed count plus the failed count: each retired slot is counted once, in exactly one tally |
| Outcomes.RetiredStep | pf_run.c:352-397 | serving one more slot adds it to the retired set exactly when it closes, and adds one to exactly the tally of its outcome |
| Context.Ctx.InitData | pf_ctx.c:19-20 | do_init leaves private data exactly when it is configured, and that request names the configured path or "/" |
| Context.Ctx.constructor | pf_run.c:172-173 | a calloc'd slot after pf_ctx_init is in the initial state for the given conf and stat |
| Context.Ctx.Initial | pf_ctx.c:11-22 | the state pf_ctx_init leaves: fd -1, wants_to_send_more clear, send_cnt 0, and the private data do_init attaches |
| Context.Ctx.Init | pf_ctx.c:11-22 | counters and wants_to_send_more zero, fd -1, state AVAIL, conf and stat stored, do_init's request attached when configured, and 0 returned |
| Context.Ctx.Reset | pf_ctx.c:24-30 | the slot is in the initial state for its own previous conf and stat |
| Context.ResetTwice | pf_ctx.c:24-30 | two resets leave the slot as one reset: initial for its original conf and stat |
| Context.Ctx.Socket | pf_ctx.c:32-43 | a failing socket() aborts and leaves fd alone; otherwise the descriptor is stored in fd and returned, never negative |
| Context.Ctx.Connect | pf_ctx.c:45-56 | as written: a failing connect() aborts, and any returned result is connect()'s non-negative one |
| Context.Ctx.ConnectReported | pf_run.c:256-270 | corrected: negative exactly when the as-written call would abort, and equal to its result whenever that one returns |
| Context.ConnectFailureEndsProcess | pf_ctx.c:50-52 | connect() returning -1 aborts the process as written, where the corrected call hands -1 to its caller |
| Context.Ctx.Close | pf_ctx.c:58-66 | fd is -1 and 0 is returned; close() was given the old descriptor exactly when it was not -1 |
| Context.CloseTwice | pf_ctx.c:58-66 | a second close returns 0 again, leaves fd -1 and calls close() no more |
| HttpRequest.RequestNamesPath | pf_http.c:27-31 | the request "GET " + path + " HTTP/1.0\nUser-Agent: pf\n\n" parses back to the configured path, or "/" when it is NULL |
| HttpRequest.RequestFromPath | pf_http.c:27-31 | every text of the request shape is the request built from the path it names, so the request format and its parse are inverses |
| HttpRequest.Init | pf_http.c:20-34 | req_len is the length of the request, which is not empty and names the configured path or "/" |
| Http.AfterRecv | pf_http.c:43-64 | a positive read adds one to recv_cnt and the count to recv_bytes; any other result changes nothing; no field but the two counters ever changes |
| Http.AfterSend | pf_http.c:66-89 | with send_cnt set or no request nothing changes; otherwise wants_to_send_more is cleared, send_cnt becomes 1 exactly when write() returned a positive count and send_bytes grows by it, and no other field changes |
| Http.Connected | pf_http.c:36-41 | wants_to_send_more is set, every other field of the slot is unchanged, and 0 is returned |
| Http.Recv | pf_http.c:43-64 | read()'s result is returned unchanged and the slot becomes AfterRecv of its old state: recv_cnt up by one and recv_bytes by the result when it is positive, nothing otherwise |
| Http.SendResult | pf_http.c:66-89 | 0 once something was sent; with no request the process ends; a positive result is the full request length; a short non-negative write is -EIO; a failed write passes through |
| Http.Send | pf_http.c:66-89 | returns SendResult, and the slot becomes AfterSend of its old state: with send_cnt set nothing changes (the request goes out at most once); otherwise wants_to_send_more is cleared, and send_cnt and send_bytes grow only on a positive write |
| Http.SendWithoutInitFaults | pf_main.c:96-99 | with do_init left NULL, the first http_send on a fresh slot ends the process whatever write() returns |
| Http.SendAfterInitReturns | pf_http.c:70-88 | with do_init set, the first http_send on a fresh slot returns: the request length for a full write, -EIO for a short one, write()'s failure otherwise |
| Http.Closing | pf_http.c:91-95 | always 0 |
| Run.State.Valid | pf_run.c:22-55 | the invariant of pf_state_t: sizes and non-aliasing fixed by pf_state_init, each bitmap standing for its slot set with its counter, need_conn and did_conn partitioning has_sock, and a slot holding fd >= 0 exactly when it is in has_sock (fd -1 otherwise) |
| Run.State.ConnectedHaveDescriptors | pf_run.c:309-310 | under the invariant, every connected slot holds a descriptor >= 0, so comparing it with the unsigned max_fd means the same as an integer comparison |
| Run.State.CountsAreSetBits | pf_run.c:43-51 | each of the three counters equals the number of bits set in its bitmap |
| Run.State.NewSlots | pf_run.c:172-173 | no_agents distinct fresh slots, each initialised with the conf and stat |
| Run.State.constructor | pf_run.c:139-176 | masks of 2 + no_agents/64 zero words, all sets empty and counters zero, every slot initialised, and the bookkeeping invariant established |
| Run.State.OpenSlot | pf_run.c:212-223 | Abort exactly when socket() fails, leaving fd alone; otherwise the slot joins has_sock and need_conn, its fd is socket()'s result, and has_sock_count is one higher; only that slot's fd changes |
| Run.State.MarkOpen | pf_run.c:219-223 | the slot joins has_sock and need_conn, did_conn is unchanged, both counters go up by one, and the masks keep standing for the sets |
| Run.State.OpenLowest | pf_run.c:204-223 | the slot chosen is the lowest without a socket; Abort exactly when its socket() fails; otherwise it joins has_sock and need_conn; its fd becomes socket()'s result on success, and every other slot's fd is unchanged |
| Run.State.OpenNext | pf_run.c:187-226 | one pass keeps the loop's invariant: every slot below the pass has a socket, the slots that had none got socket()'s result as fd, and every other slot keeps its descriptor |
| Run.State.OpenSockets | pf_run.c:187-226 | Abort exactly when socket() fails for some slot that had none; otherwise 0, has_sock is every slot, has_sock_count is no_agents, need_conn gained exactly the slots that had no socket, each of those holds socket()'s result as fd, and every other slot keeps its fd |
| Run.State.ConnectSlot | pf_run.c:272-279 | http_connected sets wants_to_send_more and leaves the slot otherwise unchanged, and the slot moves from need_conn to did_conn |
| Run.State.MarkConnected | pf_run.c:275-279 | the slot moves from need_conn to did_conn, has_sock is unchanged, one counter goes down and the other up, and the masks keep standing for the sets |
| Run.State.DropWaiting | pf_run.c:257-270 | the slot is closed and reset to its initial state, leaves has_sock and need_conn, and no_failed goes up by one |
| Run.State.UnmarkWaiting | pf_run.c:263-266 | the slot leaves has_sock and need_conn, did_conn is unchanged, both counters go down by one, and the masks keep standing for the sets |
| Run.State.ConnectLowest | pf_run.c:245-279 | the slot chosen is the lowest waiting one; on success it moves to did_conn and now wants to send, all else in it unchanged; on failure it is dropped, reset to its initial state and counted as failed; every other slot is unchanged |
| Run.State.ConnectNext | pf_run.c:236-280 | one pass keeps the loop's invariant: the waiting slots below the pass are connected and want to send, the other slots are as they were, and a failure happens exactly at the first failing slot, which is reset |
| Run.State.CreateConnections | pf_run.c:228-283 | with f the first waiting slot whose connect() fails: the waiting slots below f are connected and now want to send, f (if any) is dropped, reset to its initial state and counted as failed, the slots above f still wait, every other slot is unchanged, and 0 is returned |
| Run.State.SelectSlot | pf_run.c:300-324 | one pass of the loop keeps the read/exception sets, the write set, the counters and max_fd correct for the slots scanned so far |
| Run.State.PrepareForIo | pf_run.c:285-328 | the read and exception sets are the connected slots, and rd_cnt and er_cnt their number; the write set is the connected slots that want to send, and wr_cnt its size; max_fd is the largest of their descriptors, or 0 |
| Run.State.PerformSelect | pf_run.c:330-343 | on success each set is narrowed to what select() reported and the result is the number of ready entries; on failure -1 with the sets untouched |
| Run.State.DropConnected | pf_run.c:381-396 | the slot is closed and reset, leaves has_sock and did_conn, and exactly one of no_completed and no_failed goes up by one |
| Run.State.UnmarkConnected | pf_run.c:387-390 | the slot leaves has_sock and did_conn, need_conn is unchanged, both counters go down by one, and the masks keep standing for the sets |
| Run.State.ServeSlot | pf_run.c:353-396 | the slot's outcome is IoOutcome of its readiness, send state and the read/write results; a retiring slot is dropped, reset to its initial state and counted in exactly the tally of its outcome; any other slot keeps its bits and becomes ServedView of its old state (read counted, request sent) |
| Run.State.ServeNext | pf_run.c:352-397 | one pass keeps the loop's invariant: sets and tallies are those of the outcomes of the slots served so far, the slots served so far are AfterIo of their old state, and the others are unchanged |
| Run.State.PerformIo | pf_run.c:345-400 | Abort exactly when some slot's outcome ends the process; otherwise 0, the retired slots leave has_sock and did_conn, no_completed and no_failed grow by the completed and failed counts, and every slot is AfterIo of its old state (reset if it closed, served otherwise) |
| Run.State.Establish | pf_run.c:90-102 | Abort exactly when socket() fails on a slot that had none; the bookkeeping invariant holds after it |
| Run.State.Poll | pf_run.c:104-119 | the sets stay within the connected slots and within what select() reported, and the result is negative exactly when select() fails (-1 then) |
| Run.State.Exchange | pf_run.c:104-126 | the loop goes on (None) after a select() interrupted by EINTR; pf_run ends with select()'s -1 exactly when select() fails with another errno; it ends the process only when select() succeeded and reported some slot in the exception or write set |
| Run.PfRun | pf_run.c:70-135 | returns 0 only once no_completed reaches no_connections; ends with an error only for a select() failure other than EINTR, in a round that was begun; ends the process only in a round that was begun, where socket() failed for some slot or select() reported some slot in the exception or write set; the bookkeeping invariant holds when it returns |

## Left out

- The system calls `socket`, `connect`, `select`, `read`, `write` and `close` are not performed. Their results are parameters, and `fd_set` internals are replaced by sets of slot numbers.
- `select()`'s `max_fd + 1` bound is not checked against the sets, because descriptors are identified with their slots.
- `pf_state_display` (pf_run.c:402-440), the timing fields of `pf_state_t` and `DBG`/`BAIL` messages are left out: they are output, wall-clock time and floating point only.
- `pf_state_cleanup` and every `calloc`/`malloc`/`asprintf`/`free` are left out, along with their failure paths; allocation is assumed to succeed.
- `pf_main.c` (threads, address parsing, polling display) and `pf_stat.h` (mutex-guarded counters) are left out. The stat record is kept only as an identity (`StatRef`).
- `start_delay_sec`, `close_delay_sec`, `kill_switch` and the server address of `pf_conf_t` are left out: no code in this model reads them, except connect(), whose result is an input.
- The handler hooks are fixed to the HTTP handlers that pf_main.c:96-99 installs. `do_init` is either NULL or `http_init` (`Conf.doInit`); other handler tables are not modelled.
- `do_closing` is never called by pf_run.c; `Http.Closing` stands alone.
- The `break` after a failed `pf_ctx_new` in pf_state_open_sockets (pf_run.c:216) cannot be reached, because pf_ctx_socket BAILs first. The model follows pf_ctx_socket.
- Integer widths are not modelled: counters (`uint`, `size_t`) and byte totals are unbounded, and `asprintf` returning -1 into `size_t req_len` is not modelled.
- The request text leaked by `pf_ctx_reset` re-running `do_init` is not tracked.
- `pf_state_t`'s `max_fd`, select sets and their counters are held together in one `Selection` value. The slot sets the bitmaps stand for are a ghost `SlotSets` value beside the arrays.
- Run.PfRun: runs at most `|rounds|` iterations, one per given round of system-call results. `OutOfRounds` means the inputs ran out, not an outcome of `pf_run`. The contract does not state the slot sets after each iteration (the phase methods state them).
- Run.State.Establish: states only when it aborts; the sets it leaves are stated by OpenSockets and CreateConnections, which it runs in turn.
- Run.State.Poll: states only the bounds of the sets and the sign of the result; PrepareForIo and PerformSelect, which it runs in turn, state the sets exactly.
- Run.State.Exchange: states only how the iteration ends, not the sets it leaves; Poll and PerformIo state those. Its cause for ending the process names the select() sets only; that the writable slot also had no request is stated one level down, by Outcomes.FaultReported.
- Run.PfRun: the cause it gives for `Aborted` is per round, as Establish and Exchange state it; which slot failed is stated by OpenSockets and Outcomes.FaultReported.
- HttpRequest.Init: `req_len` is the length of the request in characters, while `asprintf` returns a length in bytes; the two agree because the path is taken to be ASCII, and character encodings are not modelled.
- Run.State.PerformSelect: select() is called with a NULL timeout (pf_run.c:339), so with no slot connected the real call blocks until a signal arrives. The model lets `Ready` with three empty sets stand for any return, and does not model blocking.
- Run.State.ServeSlot: pf_state_perform_io tests every slot with FD_ISSET (pf_run.c:357-375), including a slot pf_state_create_connections dropped, whose fd is then -1; FD_ISSET(-1) is undefined in C. The model reads such a slot as in no set, because the sets only ever hold connected slots.

## Findings

| source | as written | input that shows it | evidently intended | confidence | as-written member | corrected member |
|---|---|---|---|---|---|---|
| pf_ctx.c:50-52 | pf_ctx_connect calls BAIL (exit(-1)) when connect() fails, so the failure branch of pf_state_create_connections (pf_run.c:257-270: close, reset, clear the bits, count as failed) can never run | connect() returning -1 for the lowest waiting slot | pf_ctx_connect hands the negative result back, and the caller drops that slot, counts it as failed and stops the phase | not executed | Context.ConnectFailureEndsProcess | Context.Ctx.ConnectReported |
| pf_main.c:96-99 | the handler table never sets do_init, so every slot's private_data stays NULL and http_send (pf_http.c:70-76) dereferences it | any connected slot that select() reports writable while it wants to send | do_init set to http_init, so each slot carries its request before it sends | not executed | Http.SendWithoutInitFaults | Http.SendAfterInitReturns |
