/// What the engine's inputs and per-slot results are: select() results,
/// the syscall results of one main-loop iteration, the outcome of serving
/// one slot in pf_state_perform_io, and how outcomes are counted.
module Outcomes {
  import opened Config
  import HttpRequest
  import Http
  import opened Context

  /** EINTR from errno.h. */
  const EINTR: int := 4

  /**
   * The select() bookkeeping of pf_state_t: max_fd, and the read, write and
   * exception sets (by slot) with their counters.
   */
  datatype Selection = Selection(maxFd: int, rd: set<nat>, wr: set<nat>, er: set<nat>,
                                 rdCnt: nat, wrCnt: nat, erCnt: nat)

  /**
   * What select() reported: the slots left in each of the three sets, or
   * failure with the errno it set. Descriptors are identified with the slot
   * that owns them.
   */
  datatype SelectResult = Ready(rd: set<nat>, wr: set<nat>, er: set<nat>) | Failure(errno: int)

  /** What the system calls return during one iteration of the main loop, per slot. */
  datatype Round = Round(
    socketRc: nat -> int,
    connectRc: nat -> int,
    select: SelectResult,
    readRc: nat -> int,
    writeRc: nat -> int)

  /** How pf_run ends: returning 0, returning select()'s failure, or a BAIL. */
  datatype RunResult = Done | Error(rc: int) | Aborted | OutOfRounds

  /**
   * The lowest candidate at or above `lo` and below `n` whose system call
   * failed (returned a negative value), or `n` when none did.
   */
  function FirstFailureFrom(cands: set<nat>, rc: nat -> int, lo: nat, n: nat): (f: nat)
    requires lo <= n
    ensures lo <= f <= n
    ensures f < n ==> f in cands && rc(f) < 0
    ensures forall i :: i in cands && lo <= i < f ==> rc(i) >= 0
    decreases n - lo
  {
    if lo == n then n
    else if lo in cands && rc(lo) < 0 then lo
    else FirstFailureFrom(cands, rc, lo + 1, n)
  }

  /** Slots are visited lowest first and a phase stops at the first failure. */
  function FirstFailure(cands: set<nat>, rc: nat -> int, n: nat): (f: nat)
    ensures f <= n
    ensures f < n ==> f in cands && rc(f) < 0
    ensures forall i :: i in cands && i < f ==> rc(i) >= 0
  {
    FirstFailureFrom(cands, rc, 0, n)
  }

  /**
   * One step of a phase that walks `cands` lowest first: when everything
   * below `lo` is done, no candidate lies in [lo, i) and `i` is a candidate,
   * `i` is the first failure exactly when its call failed.
   */
  lemma FirstFailureStep(cands: set<nat>, rc: nat -> int, n: nat, lo: nat, i: nat)
    requires lo <= FirstFailure(cands, rc, n)
    requires lo <= i < n && i in cands
    requires forall k :: k in cands && lo <= k < i ==> false
    ensures rc(i) < 0 ==> FirstFailure(cands, rc, n) == i
    ensures rc(i) >= 0 ==> i + 1 <= FirstFailure(cands, rc, n)
  {
  }

  /** What one pass of pf_state_perform_io does to one slot. */
  datatype AgentIo =
    | Keep       // stays connected
    | Completed  // read() returned 0: closed and counted as completed
    | Failed     // read() or http_send returned a negative value, or nothing was written: closed and counted as failed
    | Fault      // the process ends: an exception on an open slot, or http_send with no request

  /**
   * The outcome for one slot from whether select() left it readable,
   * writable and in exception, its send state, and what read() and write()
   * returned. A read of 0 or less closes the slot, and a closing slot is
   * neither written to nor checked for an exception.
   */
  function IoOutcome(
    inRd: bool, inWr: bool, inEr: bool,
    wants: bool, sendCnt: nat, priv: Option<HttpRequest.HttpPriv>,
    readRc: int, writeRc: int): (r: AgentIo)
    ensures r == Fault ==> inEr || (wants && inWr && sendCnt == 0 && priv.None?)
  {
    if inRd && readRc <= 0 then
      (if readRc == 0 then Completed else Failed)
    else if wants && inWr then
      match Http.SendResult(sendCnt, priv, writeRc)
      case Abort => Fault
      case Ret(rc) =>
        if rc <= 0 then Failed
        else if inEr then Fault
        else Keep
    else if inEr then Fault
    else Keep
  }

  /** The outcome for slot `k` in state `v`, from the select() sets `s` and the per-slot results of read() and write(). */
  function SlotIo(s: Selection, k: nat, v: CtxView, readRc: nat -> int, writeRc: nat -> int): AgentIo {
    IoOutcome(k in s.rd, k in s.wr, k in s.er, v.wantsToSendMore, v.sendCnt, v.privateData, readRc(k), writeRc(k))
  }

  /**
   * What pf_state_perform_io leaves in a slot it does not close: http_recv
   * when it is readable, then http_send when it is writable and still
   * wants to send.
   */
  function ServedView(v: CtxView, inRd: bool, inWr: bool, readRc: int, writeRc: int): CtxView {
    var r := if inRd then Http.AfterRecv(v, readRc) else v;
    if r.wantsToSendMore && inWr then Http.AfterSend(r, writeRc) else r
  }

  /** What pf_state_perform_io leaves in slot `k`: a closed slot is reset, any other one is served. */
  function AfterIo(s: Selection, k: nat, v: CtxView, readRc: nat -> int, writeRc: nat -> int): CtxView {
    if Retires(SlotIo(s, k, v, readRc, writeRc)) then Ctx.Initial(v.conf, v.stat)
    else ServedView(v, k in s.rd, k in s.wr, readRc(k), writeRc(k))
  }

  /** The outcomes of all slots, lowest first. */
  function IoOutcomes(s: Selection, views: seq<CtxView>, readRc: nat -> int, writeRc: nat -> int): (outs: seq<AgentIo>)
    ensures |outs| == |views|
  {
    seq(|views|, k requires 0 <= k < |views| => SlotIo(s, k, views[k], readRc, writeRc))
  }

  /**
   * A slot only ends the process when select() reported an exception on
   * it, or reported it writable while it wanted to send with no request.
   */
  lemma FaultReported(s: Selection, views: seq<CtxView>, readRc: nat -> int, writeRc: nat -> int)
    requires Fault in IoOutcomes(s, views, readRc, writeRc)
    ensures exists j :: 0 <= j < |views| && (j in s.er || (j in s.wr && views[j].privateData.None?))
  {
    var outs := IoOutcomes(s, views, readRc, writeRc);
    var j :| 0 <= j < |outs| && outs[j] == Fault;
    assert SlotIo(s, j, views[j], readRc, writeRc) == Fault;
  }

  /**
   * A slot that stays open has counted what read() returned and, when it
   * was writable and still wanted to send, has sent its whole request:
   * it is counted once and wants nothing more.
   */
  lemma KeptSlotProgress(s: Selection, k: nat, v: CtxView, readRc: nat -> int, writeRc: nat -> int)
    requires SlotIo(s, k, v, readRc, writeRc) == Keep
    ensures var w := AfterIo(s, k, v, readRc, writeRc);
            && w.fd == v.fd && w.privateData == v.privateData
            && (k in s.rd ==> readRc(k) > 0 && w.recvCnt == v.recvCnt + 1 && w.recvBytes == v.recvBytes + readRc(k))
            && (k !in s.rd ==> w.recvCnt == v.recvCnt && w.recvBytes == v.recvBytes)
            && (v.wantsToSendMore && k in s.wr ==>
                  && v.sendCnt == 0 && v.privateData.Some?
                  && writeRc(k) == v.privateData.value.reqLen > 0
                  && !w.wantsToSendMore && w.sendCnt == 1 && w.sendBytes == v.sendBytes + writeRc(k))
            && (!(v.wantsToSendMore && k in s.wr) ==> w.wantsToSendMore == v.wantsToSendMore && w.sendCnt == v.sendCnt)
  {
  }

  /** A slot that closes is back in the state pf_ctx_init leaves: no descriptor and nothing to send. */
  lemma RetiredSlotIsReset(s: Selection, k: nat, v: CtxView, readRc: nat -> int, writeRc: nat -> int)
    requires Retires(SlotIo(s, k, v, readRc, writeRc))
    ensures var w := AfterIo(s, k, v, readRc, writeRc);
            && w.fd == -1 && !w.wantsToSendMore && w.sendCnt == 0 && w.recvCnt == 0
            && w.conf == v.conf && w.stat == v.stat
  {
  }

  /** A slot counts as completed exactly when select() left it readable and read() returned 0. */
  lemma CompletedIffCleanEof(
    inRd: bool, inWr: bool, inEr: bool,
    wants: bool, sendCnt: nat, priv: Option<HttpRequest.HttpPriv>,
    readRc: int, writeRc: int)
    ensures IoOutcome(inRd, inWr, inEr, wants, sendCnt, priv, readRc, writeRc) == Completed
            <==> inRd && readRc == 0
  {
  }

  /** Once read() has closed a slot, nothing about writing or exceptions matters. */
  lemma ClosingSkipsSend(
    inWr: bool, inEr: bool,
    wants: bool, sendCnt: nat, priv: Option<HttpRequest.HttpPriv>,
    readRc: int, writeRc: int, inWr': bool, inEr': bool, writeRc': int)
    requires readRc <= 0
    ensures IoOutcome(true, inWr, inEr, wants, sendCnt, priv, readRc, writeRc)
         == IoOutcome(true, inWr', inEr', wants, sendCnt, priv, readRc, writeRc')
  {
  }

  /** An exception on a slot that is still open after reading and writing ends the process. */
  lemma ExceptionOnOpenSlotFaults(
    inRd: bool, inWr: bool,
    wants: bool, sendCnt: nat, priv: Option<HttpRequest.HttpPriv>,
    readRc: int, writeRc: int)
    ensures IoOutcome(inRd, inWr, true, wants, sendCnt, priv, readRc, writeRc) != Keep
  {
  }

  /** A slot select() did not report is kept as it is. */
  lemma NotReadyIsKept(
    wants: bool, sendCnt: nat, priv: Option<HttpRequest.HttpPriv>,
    readRc: int, writeRc: int)
    ensures IoOutcome(false, false, false, wants, sendCnt, priv, readRc, writeRc) == Keep
  {
  }

  /** How many slots of `outs` had outcome `o`. */
  function Count(outs: seq<AgentIo>, o: AgentIo): (c: nat)
    ensures c <= |outs|
    ensures c == 0 <==> o !in outs
  {
    if outs == [] then 0
    else Count(outs[..|outs| - 1], o) + (if outs[|outs| - 1] == o then 1 else 0)
  }

  /** Whether an outcome closes the slot and counts it. */
  predicate Retires(o: AgentIo) {
    o == Completed || o == Failed
  }

  /** The slots whose outcome closes them. */
  function Retired(outs: seq<AgentIo>): (s: set<nat>)
    ensures forall i: nat :: i in s <==> i < |outs| && Retires(outs[i])
  {
    set i: nat | i < |outs| && Retires(outs[i])
  }

  /** Every closed slot is counted once, as completed or as failed. */
  lemma {:induction false} RetiredCount(outs: seq<AgentIo>)
    ensures |Retired(outs)| == Count(outs, Completed) + Count(outs, Failed)
  {
    if outs != [] {
      var k := |outs| - 1;
      RetiredCount(outs[..k]);
      RetiredStep(outs, k);
      assert outs[..k + 1] == outs;
      if Retires(outs[k]) {
        assert k !in Retired(outs[..k]);
      }
    }
  }

  lemma RetiredStep(outs: seq<AgentIo>, k: nat)
    requires k < |outs|
    ensures Retired(outs[..k + 1]) == Retired(outs[..k]) + (if Retires(outs[k]) then {k} else {})
    ensures Count(outs[..k + 1], Completed) == Count(outs[..k], Completed) + (if outs[k] == Completed then 1 else 0)
    ensures Count(outs[..k + 1], Failed) == Count(outs[..k], Failed) + (if outs[k] == Failed then 1 else 0)
    ensures Fault in outs[..k + 1] <==> Fault in outs[..k] || outs[k] == Fault
  {
    assert outs[..k + 1] == outs[..k] + [outs[k]];
    assert outs[..k + 1][..k] == outs[..k];
  }

}
