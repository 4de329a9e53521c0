/// The per-worker engine of pf_run.c: a fixed array of agent slots, three
/// bitmaps (with their counters) that say which slots hold a socket, which
/// still have to connect and which are connected, and the phases of one
/// iteration of the main loop. What socket(), connect(), select(), read()
/// and write() return is an input of the model, given per agent slot.
module Run {
  import opened Config
  import opened Bitops
  import opened Context
  import opened Outcomes
  import opened Ledger
  import HttpRequest
  import Http

  class State {
    const conf: Conf
    const agents: seq<Ctx>
    /** Words in each bitmap: two more than the agents need. */
    const maskLongCnt: nat
    const hasSockMask: array<bv64>
    const needConnMask: array<bv64>
    const didConnMask: array<bv64>
    var hasSockCount: nat
    var needConnCount: nat
    var didConnCount: nat
    var noFailed: nat
    var noCompleted: nat
    /** max_fd and the select() sets with their counters. */
    var sel: Selection
    /** The slots holding a socket, the ones still to connect, and the connected ones. */
    ghost var bits: SlotSets

    /** The context objects of all slots. */
    ghost function Slots(): set<Ctx>
    {
      set i | 0 <= i < |agents| :: agents[i]
    }

    /** The state of every slot, in slot order. */
    ghost function Views(): (vs: seq<CtxView>)
      reads Slots()
      ensures |vs| == |agents| && forall k :: 0 <= k < |agents| ==> vs[k] == agents[k].View()
    {
      seq(|agents|, k requires 0 <= k < |agents| reads Slots() => agents[k].View())
    }

    /** What the allocation in pf_state_init fixes: sizes, and slots and bitmaps that do not alias. */
    ghost predicate Shape()
    {
      && |agents| == conf.noAgents
      && maskLongCnt == 2 + conf.noAgents / 64
      && conf.noAgents < 64 * maskLongCnt
      && hasSockMask.Length == maskLongCnt
      && needConnMask.Length == maskLongCnt
      && didConnMask.Length == maskLongCnt
      && hasSockMask != needConnMask && hasSockMask != didConnMask && needConnMask != didConnMask
      && (forall i, j :: 0 <= i < j < |agents| ==> agents[i] != agents[j])
    }

    /** A slot in has_sock holds a descriptor (fd >= 0); any other slot's fd is -1. */
    ghost predicate Descriptors()
      reads this`bits, Slots()`fd
    {
      forall k :: 0 <= k < |agents| ==> agents[k].HoldsSocket(k in bits.hasSock)
    }

    /** The bookkeeping: each bitmap stands for its slot set, and the sets and counters keep Part. */
    ghost predicate Booked()
      reads this`hasSockCount, this`needConnCount, this`didConnCount
      reads this`bits
      reads hasSockMask, needConnMask, didConnMask
    {
      && Shape()
      && Books(hasSockMask[..], needConnMask[..], didConnMask[..], bits.hasSock, bits.needConn, bits.didConn,
               hasSockCount, needConnCount, didConnCount, conf.noAgents)
    }

    /** The invariant of the engine's state: the bookkeeping, and descriptors that agree with has_sock. */
    ghost predicate Valid()
      reads this`hasSockCount, this`needConnCount, this`didConnCount
      reads this`bits, Slots()`fd
      reads hasSockMask, needConnMask, didConnMask
    {
      Booked() && Descriptors()
    }

    /**
     * Every connected slot holds a descriptor, so max_fd, an unsigned
     * integer in pf_state_prepare_for_io, is compared with non-negative
     * descriptors only and the comparison means the same as on integers.
     */
    lemma ConnectedHaveDescriptors()
      requires Valid()
      ensures forall k :: k in bits.didConn ==> k < |agents| && agents[k].fd >= 0
    {
    }

    /** Each counter is the number of bits set in its bitmap. */
    lemma CountsAreSetBits()
      requires Valid()
      ensures hasSockCount == |Members(hasSockMask[..], 64 * hasSockMask.Length)|
      ensures needConnCount == |Members(needConnMask[..], 64 * needConnMask.Length)|
      ensures didConnCount == |Members(didConnMask[..], 64 * didConnMask.Length)|
    {
      TallyCard(bits.hasSock, conf.noAgents);
      TallyCard(bits.needConn, conf.noAgents);
      TallyCard(bits.didConn, conf.noAgents);
    }

    /** The loop of pf_state_init over the slots: a fresh, initialised context for each. */
    static method NewSlots(c: Conf, s: StatRef) returns (slots: seq<Ctx>)
      ensures |slots| == c.noAgents
      ensures forall i :: 0 <= i < |slots| ==> fresh(slots[i]) && slots[i].IsInitial(c, s)
      ensures forall i, j :: 0 <= i < j < |slots| ==> slots[i] != slots[j]
    {
      slots := [];
      while |slots| < c.noAgents
        invariant |slots| <= c.noAgents
        invariant forall i :: 0 <= i < |slots| ==> fresh(slots[i]) && slots[i].IsInitial(c, s)
        invariant forall i, j :: 0 <= i < j < |slots| ==> slots[i] != slots[j]
      {
        var ctx := new Ctx(c, s);
        slots := slots + [ctx];
      }
    }

    /**
     * pf_state_init: zeroed counters, three zero-filled bitmaps of
     * 2 + noAgents/64 words, and every slot initialised with the configuration.
     */
    constructor (c: Conf, s: StatRef)
      ensures Valid()
      ensures fresh(Slots()) && fresh(hasSockMask) && fresh(needConnMask) && fresh(didConnMask)
      ensures conf == c && maskLongCnt == 2 + c.noAgents / 64
      ensures bits.hasSock == {} && bits.needConn == {} && bits.didConn == {}
      ensures hasSockCount == 0 && needConnCount == 0 && didConnCount == 0
      ensures noFailed == 0 && noCompleted == 0
      ensures forall i :: 0 <= i < |agents| ==> agents[i].IsInitial(c, s)
    {
      var n := c.noAgents;
      MaskWords(n);
      var slots := NewSlots(c, s);
      conf := c;
      agents := slots;
      maskLongCnt := 2 + n / 64;
      hasSockMask := new bv64[2 + n / 64](_ => 0);
      needConnMask := new bv64[2 + n / 64](_ => 0);
      didConnMask := new bv64[2 + n / 64](_ => 0);
      hasSockCount, needConnCount, didConnCount := 0, 0, 0;
      noFailed, noCompleted := 0, 0;
      sel := Selection(0, {}, {}, {}, 0, 0, 0);
      bits := SlotSets({}, {}, {});
      new;
      ZeroMask(hasSockMask[..], n);
      ZeroMask(needConnMask[..], n);
      ZeroMask(didConnMask[..], n);
      TallyEmpty(n);
    }

    /**
     * The body of the loop in pf_state_open_sockets for slot `i`: a socket
     * for its context, then its bits in has_sock and need_conn.
     */
    method OpenSlot(i: nat, sysRc: int) returns (r: Ret)
      requires Valid() && i < conf.noAgents && i !in bits.hasSock
      modifies this`hasSockCount, this`needConnCount, this`bits
      modifies hasSockMask, needConnMask, {agents[i]}`fd
      ensures Valid()
      ensures r.Abort? <==> sysRc < 0
      ensures r.Ret? ==> bits.hasSock == old(bits.hasSock) + {i} && bits.needConn == old(bits.needConn) + {i} && agents[i].fd == sysRc
      ensures r.Ret? ==> hasSockCount == old(hasSockCount) + 1
      ensures r.Abort? ==> agents[i].fd == old(agents[i].fd)
    {
      var ctx := agents[i];
      assert forall k :: 0 <= k < |agents| && k != i ==> agents[k] != ctx;
      r := ctx.Socket(sysRc);
      if r.Abort? {
        return;
      }
      MarkOpen(i);
      assert ctx.HoldsSocket(true);
    }

    /** The bits of a slot that got a socket (pf_run.c:219-223): it is in has_sock and in need_conn. */
    method MarkOpen(i: nat)
      requires Booked() && i < conf.noAgents && i !in bits.hasSock
      modifies this`hasSockCount, this`needConnCount, this`bits, hasSockMask, needConnMask
      ensures Booked()
      ensures bits == old(bits).(hasSock := old(bits.hasSock) + {i}, needConn := old(bits.needConn) + {i})
      ensures hasSockCount == old(hasSockCount) + 1 && needConnCount == old(needConnCount) + 1
    {
      BooksOpen(hasSockMask[..], needConnMask[..], didConnMask[..], bits.hasSock, bits.needConn, bits.didConn,
                hasSockCount, needConnCount, didConnCount, conf.noAgents, i);
      SetBoth(i, hasSockMask, needConnMask, didConnMask);
      bits := bits.(hasSock := bits.hasSock + {i}, needConn := bits.needConn + {i});
      hasSockCount, needConnCount := hasSockCount + 1, needConnCount + 1;
    }

    /**
     * One pass of the loop in pf_state_open_sockets: the lowest slot
     * without a socket gets one.
     */
    method OpenLowest(socketRc: nat -> int) returns (r: Ret, i: nat)
      requires Valid() && hasSockCount < conf.noAgents
      modifies this`hasSockCount, this`needConnCount, this`bits
      modifies hasSockMask, needConnMask, Slots()`fd
      ensures Valid()
      ensures i < conf.noAgents && i !in old(bits.hasSock) && Below(i) <= old(bits.hasSock)
      ensures r.Abort? <==> socketRc(i) < 0
      ensures r.Ret? ==> bits.hasSock == old(bits.hasSock) + {i} && bits.needConn == old(bits.needConn) + {i}
      ensures r.Ret? ==> hasSockCount == old(hasSockCount) + 1
      ensures forall k :: 0 <= k < |agents| ==> agents[k].fd == if k == i && r.Ret? then socketRc(i) else old(agents[k].fd)
    {
      i := FindFirstZeroBit(hasSockMask, conf.noAgents);
      LowestFree(hasSockMask[..], bits.hasSock, conf.noAgents, i);
      r := OpenSlot(i, socketRc(i));
    }

    /**
     * One pass of the loop in pf_state_open_sockets, with what the passes
     * so far did: the slots without a socket in `start` that lie below `lo`
     * got one from socket(), and every other slot keeps its descriptor in `fds`.
     */
    method OpenNext(socketRc: nat -> int, ghost start: set<nat>, ghost fds: seq<int>, ghost lo: nat) returns (r: Ret, i: nat)
      requires Valid() && hasSockCount < conf.noAgents && |fds| == |agents|
      requires start <= bits.hasSock && Below(lo) <= bits.hasSock
      requires forall k :: k in bits.hasSock ==> k in start || k < lo
      requires forall k: nat :: k < lo && k !in start ==> socketRc(k) >= 0
      requires forall k :: 0 <= k < |agents| ==> agents[k].fd == if k !in start && k < lo then socketRc(k) else fds[k]
      modifies this`hasSockCount, this`needConnCount, this`bits
      modifies hasSockMask, needConnMask, Slots()`fd
      ensures Valid()
      ensures i < conf.noAgents && i !in start && lo <= i
      ensures r.Abort? <==> socketRc(i) < 0
      ensures r.Ret? ==> && hasSockCount == old(hasSockCount) + 1
                         && bits.needConn == old(bits.needConn) + {i}
                         && start <= bits.hasSock && Below(i + 1) <= bits.hasSock
                         && (forall k :: k in bits.hasSock ==> k in start || k < i + 1)
                         && (forall k: nat :: k < i + 1 && k !in start ==> socketRc(k) >= 0)
                         && (forall k :: 0 <= k < |agents| ==>
                               agents[k].fd == if k !in start && k < i + 1 then socketRc(k) else fds[k])
    {
      ghost var has := bits.hasSock;
      r, i := OpenLowest(socketRc);
      OpenStep(start, has, lo, i);
    }

    /**
     * pf_state_open_sockets: while some slot has no socket, give the lowest
     * such slot one; a failing socket() ends the process.
     */
    method OpenSockets(socketRc: nat -> int) returns (r: Ret)
      requires Valid()
      modifies this`hasSockCount, this`needConnCount, this`bits
      modifies hasSockMask, needConnMask, Slots()`fd
      ensures Valid()
      ensures r.Abort? <==> exists k: nat :: k < conf.noAgents && k !in old(bits.hasSock) && socketRc(k) < 0
      ensures r.Ret? ==> r.rc == 0 && bits.hasSock == Below(conf.noAgents) && hasSockCount == conf.noAgents
      ensures r.Ret? ==> bits.needConn == old(bits.needConn) + (Below(conf.noAgents) - old(bits.hasSock))
      ensures r.Ret? ==> forall k :: 0 <= k < |agents| ==>
                agents[k].fd == if k in old(bits.hasSock) then old(agents[k].fd) else socketRc(k)
    {
      var n := conf.noAgents;
      ghost var lo: nat := 0;
      ghost var fds := seq(|agents|, k requires 0 <= k < |agents| reads Slots() => agents[k].fd);
      while hasSockCount < n
        invariant Valid()
        invariant old(bits.hasSock) <= bits.hasSock && Below(lo) <= bits.hasSock
        invariant forall k :: k in bits.hasSock ==> k in old(bits.hasSock) || k < lo
        invariant forall k: nat :: k < lo && k !in old(bits.hasSock) ==> socketRc(k) >= 0
        invariant forall k :: 0 <= k < |agents| ==>
                    agents[k].fd == if k !in old(bits.hasSock) && k < lo then socketRc(k) else fds[k]
        decreases n - hasSockCount
      {
        var rc, i := OpenNext(socketRc, old(bits.hasSock), fds, lo);
        if rc.Abort? {
          return Abort;
        }
        lo := i + 1;
      }
      TallyFull(bits.hasSock, n);
      OpenDone(old(bits.hasSock), old(bits.needConn), bits.hasSock, bits.needConn, bits.didConn, n);
      r := Ret(0);
    }

    /**
     * The success path of the loop in pf_state_create_connections for slot
     * `i`: http_connected, then the slot moves from need_conn to did_conn.
     */
    method ConnectSlot(i: nat)
      requires Valid() && i < conf.noAgents && i in bits.needConn
      modifies this`needConnCount, this`didConnCount, this`bits
      modifies needConnMask, didConnMask, {agents[i]}`wantsToSendMore
      ensures Valid()
      ensures bits.needConn == old(bits.needConn) - {i} && bits.didConn == old(bits.didConn) + {i}
      ensures needConnCount == old(needConnCount) - 1
      ensures agents[i].View() == old(agents[i].View()).(wantsToSendMore := true)
    {
      var rc := Http.Connected(agents[i]);
      MarkConnected(i);
    }

    /** The bits of a slot that connected (pf_run.c:275-279): it moves from need_conn to did_conn. */
    method MarkConnected(i: nat)
      requires Booked() && i < conf.noAgents && i in bits.needConn
      modifies this`needConnCount, this`didConnCount, this`bits, needConnMask, didConnMask
      ensures Booked()
      ensures bits == old(bits).(needConn := old(bits.needConn) - {i}, didConn := old(bits.didConn) + {i})
      ensures needConnCount == old(needConnCount) - 1 && didConnCount == old(didConnCount) + 1
    {
      BooksConnect(hasSockMask[..], needConnMask[..], didConnMask[..], bits.hasSock, bits.needConn, bits.didConn,
                   hasSockCount, needConnCount, didConnCount, conf.noAgents, i);
      MoveBit(i, needConnMask, didConnMask, hasSockMask);
      bits := bits.(needConn := bits.needConn - {i}, didConn := bits.didConn + {i});
      needConnCount, didConnCount := needConnCount - 1, didConnCount + 1;
    }

    /**
     * The failure path of the loop in pf_state_create_connections for slot
     * `i`: the slot is closed and reset, loses its socket and stops waiting,
     * and counts as failed.
     */
    method DropWaiting(i: nat)
      requires Valid() && i < conf.noAgents && i in bits.needConn
      modifies this`hasSockCount, this`needConnCount, this`bits, this`noFailed
      modifies hasSockMask, needConnMask, agents[i]
      ensures Valid()
      ensures bits.hasSock == old(bits.hasSock) - {i} && bits.needConn == old(bits.needConn) - {i}
      ensures needConnCount == old(needConnCount) - 1
      ensures noFailed == old(noFailed) + 1
      ensures agents[i].IsInitial(old(agents[i].conf), old(agents[i].stat))
    {
      var ctx := agents[i];
      assert forall k :: 0 <= k < |agents| && k != i ==> agents[k] != ctx;
      var rc, closed := ctx.Close();
      ctx.Reset();
      UnmarkWaiting(i);
      assert ctx.HoldsSocket(false);
      noFailed := noFailed + 1;
    }

    /** The bits of a waiting slot that is dropped (pf_run.c:263-266): it leaves has_sock and need_conn. */
    method UnmarkWaiting(i: nat)
      requires Booked() && i < conf.noAgents && i in bits.needConn
      modifies this`hasSockCount, this`needConnCount, this`bits, hasSockMask, needConnMask
      ensures Booked()
      ensures bits == old(bits).(hasSock := old(bits.hasSock) - {i}, needConn := old(bits.needConn) - {i})
      ensures hasSockCount == old(hasSockCount) - 1 && needConnCount == old(needConnCount) - 1
    {
      BooksDropWaiting(hasSockMask[..], needConnMask[..], didConnMask[..], bits.hasSock, bits.needConn, bits.didConn,
                       hasSockCount, needConnCount, didConnCount, conf.noAgents, i);
      ClearBoth(i, hasSockMask, needConnMask, didConnMask);
      bits := bits.(hasSock := bits.hasSock - {i}, needConn := bits.needConn - {i});
      hasSockCount, needConnCount := hasSockCount - 1, needConnCount - 1;
    }

    /**
     * One pass of the loop in pf_state_create_connections: the lowest
     * waiting slot connects, or is dropped when connect() fails.
     */
    method ConnectLowest(connectRc: nat -> int) returns (ok: bool, i: nat)
      requires Valid() && needConnCount > 0
      modifies this`hasSockCount, this`needConnCount, this`didConnCount
      modifies this`bits, this`noFailed
      modifies hasSockMask, needConnMask, didConnMask, Slots()
      ensures Valid()
      ensures i < conf.noAgents && i in old(bits.needConn) && forall k :: k in old(bits.needConn) ==> i <= k
      ensures ok <==> connectRc(i) >= 0
      ensures bits.needConn == old(bits.needConn) - {i} && needConnCount == old(needConnCount) - 1
      ensures ok ==> bits.hasSock == old(bits.hasSock) && bits.didConn == old(bits.didConn) + {i} && noFailed == old(noFailed)
      ensures ok ==> agents[i].View() == old(agents[i].View()).(wantsToSendMore := true)
      ensures !ok ==> bits.hasSock == old(bits.hasSock) - {i} && bits.didConn == old(bits.didConn) && noFailed == old(noFailed) + 1
      ensures !ok ==> agents[i].IsInitial(old(agents[i].conf), old(agents[i].stat))
      ensures forall k :: 0 <= k < |agents| && k != i ==> agents[k].View() == old(agents[k].View())
    {
      i := FindFirstBit(needConnMask, conf.noAgents);
      LowestMember(needConnMask[..], bits.needConn, conf.noAgents, i);
      var rc := Ctx.ConnectReported(connectRc(i));
      ok := rc >= 0;
      if ok {
        ConnectSlot(i);
      } else {
        DropWaiting(i);
      }
    }

    /**
     * One pass of the loop in pf_state_create_connections, with what the
     * passes so far did: the waiting slots below `lo` connected, and `f` is
     * the first waiting slot whose connect() fails (or `noAgents`).
     */
    method ConnectNext(connectRc: nat -> int, ghost start: SlotSets, ghost failed: nat, ghost views: seq<CtxView>,
                       ghost lo: nat, ghost f: nat)
      returns (ok: bool, i: nat)
      requires Valid() && needConnCount > 0 && |views| == |agents|
      requires f == FirstFailure(start.needConn, connectRc, conf.noAgents) && lo <= f
      requires bits.needConn == start.needConn - Below(lo)
      requires bits.didConn == start.didConn + start.needConn * Below(lo)
      requires bits.hasSock == start.hasSock && noFailed == failed
      requires forall k :: 0 <= k < |agents| ==>
                 agents[k].View() == if k in bits.didConn - start.didConn then views[k].(wantsToSendMore := true) else views[k]
      modifies this`hasSockCount, this`needConnCount, this`didConnCount, this`bits, this`noFailed
      modifies hasSockMask, needConnMask, didConnMask, Slots()
      ensures Valid() && needConnCount < old(needConnCount)
      ensures ok ==> && i + 1 <= f
                     && bits.needConn == start.needConn - Below(i + 1)
                     && bits.didConn == start.didConn + start.needConn * Below(i + 1)
                     && bits.hasSock == start.hasSock && noFailed == failed
                     && forall k :: 0 <= k < |agents| ==>
                          agents[k].View() == if k in bits.didConn - start.didConn then views[k].(wantsToSendMore := true) else views[k]
      ensures !ok ==> && i == f < conf.noAgents
                      && bits.needConn == start.needConn - Below(f + 1)
                      && bits.didConn == start.didConn + start.needConn * Below(f)
                      && bits.hasSock == start.hasSock - {f} && noFailed == failed + 1
                      && agents[f].View() == Ctx.Initial(views[f].conf, views[f].stat)
                      && forall k :: 0 <= k < |agents| && k != f ==>
                           agents[k].View() == if k in bits.didConn - start.didConn then views[k].(wantsToSendMore := true) else views[k]
    {
      ghost var need, did := bits.needConn, bits.didConn;
      ok, i := ConnectLowest(connectRc);
      ConnectStep(start.needConn, start.didConn, need, did, lo, i);
      FirstFailureStep(start.needConn, connectRc, conf.noAgents, lo, i);
    }

    /**
     * pf_state_create_connections: connect the waiting slots lowest first;
     * the first failed connect() drops its slot and ends the phase.
     */
    method CreateConnections(connectRc: nat -> int) returns (rc: int)
      requires Valid()
      modifies this`hasSockCount, this`needConnCount, this`didConnCount, this`bits, this`noFailed
      modifies hasSockMask, needConnMask, didConnMask, Slots()
      ensures Valid() && rc == 0
      ensures var f := FirstFailure(old(bits.needConn), connectRc, conf.noAgents);
              && bits.needConn == old(bits.needConn) - Below(f + 1)
              && bits.didConn == old(bits.didConn) + old(bits.needConn) * Below(f)
              && bits.hasSock == old(bits.hasSock) - (if f < conf.noAgents then {f} else {})
              && noFailed == old(noFailed) + (if f < conf.noAgents then 1 else 0)
      ensures var f, views := FirstFailure(old(bits.needConn), connectRc, conf.noAgents), old(Views());
              && (f < conf.noAgents ==> agents[f].View() == Ctx.Initial(views[f].conf, views[f].stat))
              && forall k :: 0 <= k < |agents| && k != f ==>
                   agents[k].View() == if k in bits.didConn - old(bits.didConn) then views[k].(wantsToSendMore := true) else views[k]
    {
      var n := conf.noAgents;
      ghost var f := FirstFailure(bits.needConn, connectRc, n);
      ghost var lo: nat := 0;
      ghost var views := Views();
      while needConnCount > 0
        invariant Valid()
        invariant lo <= f
        invariant bits.needConn == old(bits.needConn) - Below(lo)
        invariant bits.didConn == old(bits.didConn) + old(bits.needConn) * Below(lo)
        invariant bits.hasSock == old(bits.hasSock) && noFailed == old(noFailed)
        invariant forall k :: 0 <= k < |agents| ==>
                    agents[k].View() == if k in bits.didConn - old(bits.didConn) then views[k].(wantsToSendMore := true) else views[k]
        decreases needConnCount
      {
        var ok, i := ConnectNext(connectRc, old(bits), old(noFailed), views, lo, f);
        if !ok {
          return 0;
        }
        lo := i + 1;
      }
      TallyZero(bits.needConn, n);
      ConnectDone(old(bits.needConn), old(bits.didConn), bits.needConn, bits.didConn, n, lo, f);
      rc := 0;
    }

    /**
     * One slot of pf_state_prepare_for_io (pf_run.c:300-324): a connected
     * slot joins the read and exception sets, and the write set when it
     * wants to send, and raises max_fd to its descriptor; so what held of
     * the slots below `i` holds of the slots below `i + 1`.
     */
    method SelectSlot(i: nat, ghost top: nat) returns (ghost top': nat)
      requires |agents| == conf.noAgents && Mask(didConnMask[..], bits.didConn, conf.noAgents) && i < conf.noAgents
      requires sel.rd == Joined(bits.didConn, i) && sel.er == sel.rd && sel.rdCnt == Tally(bits.didConn, i) && sel.erCnt == sel.rdCnt
      requires forall k :: k in sel.wr <==> k in bits.didConn && k < i && agents[k].wantsToSendMore
      requires sel.wrCnt == Tally(sel.wr, conf.noAgents)
      requires sel.maxFd >= 0 && forall k :: k in bits.didConn && k < i ==> agents[k].fd <= sel.maxFd
      requires sel.maxFd == 0 || (top in bits.didConn && top < i && agents[top].fd == sel.maxFd)
      modifies this`sel
      ensures sel.rd == Joined(bits.didConn, i + 1) && sel.er == sel.rd && sel.rdCnt == Tally(bits.didConn, i + 1) && sel.erCnt == sel.rdCnt
      ensures forall k :: k in sel.wr <==> k in bits.didConn && k < i + 1 && agents[k].wantsToSendMore
      ensures sel.wrCnt == Tally(sel.wr, conf.noAgents)
      ensures sel.maxFd >= 0 && forall k :: k in bits.didConn && k < i + 1 ==> agents[k].fd <= sel.maxFd
      ensures sel.maxFd == 0 || (top' in bits.didConn && top' < i + 1 && agents[top'].fd == sel.maxFd)
    {
      MaskMember(didConnMask[..], bits.didConn, conf.noAgents, i);
      top' := top;
      if TestBit(i, didConnMask[..]) == 0 {
        return;
      }
      var ctx := agents[i];
      var s := sel;
      var fd, wr, wc := s.maxFd, s.wr, s.wrCnt;
      if fd < ctx.fd {
        fd, top' := ctx.fd, i;
      }
      if ctx.wantsToSendMore {
        TallyAdd(wr, conf.noAgents, i);
        wr, wc := wr + {i}, wc + 1;
      }
      sel := Selection(fd, s.rd + {i}, wr, s.er + {i}, s.rdCnt + 1, wc, s.erCnt + 1);
    }

    /**
     * pf_state_prepare_for_io: every connected slot is selected for
     * reading and for exceptions, and for writing when it wants to send;
     * max_fd is the largest descriptor among them, or 0. It reads only
     * did_conn, its counter and the slots.
     */
    method PrepareForIo() returns (rc: int)
      requires |agents| == conf.noAgents && Mask(didConnMask[..], bits.didConn, conf.noAgents)
      requires didConnCount == Tally(bits.didConn, conf.noAgents)
      modifies this`sel
      ensures rc == 0
      ensures sel.rd == bits.didConn && sel.er == bits.didConn && sel.rdCnt == didConnCount && sel.erCnt == didConnCount
      ensures forall k :: k in sel.wr <==> k in bits.didConn && k < |agents| && agents[k].wantsToSendMore
      ensures sel.wrCnt == Tally(sel.wr, |agents|)
      ensures sel.maxFd >= 0 && forall k :: k in bits.didConn && k < |agents| ==> agents[k].fd <= sel.maxFd
      ensures sel.maxFd == 0 || exists k :: k in bits.didConn && k < |agents| && agents[k].fd == sel.maxFd
    {
      var n := conf.noAgents;
      TallyEmpty(n);
      sel := Selection(0, {}, {}, {}, 0, 0, 0);
      ghost var top: nat := 0;
      for i := 0 to n
        invariant sel.rd == Joined(bits.didConn, i) && sel.er == sel.rd && sel.rdCnt == Tally(bits.didConn, i) && sel.erCnt == sel.rdCnt
        invariant forall k :: k in sel.wr <==> k in bits.didConn && k < i && agents[k].wantsToSendMore
        invariant sel.wrCnt == Tally(sel.wr, n)
        invariant sel.maxFd >= 0 && forall k :: k in bits.didConn && k < i ==> agents[k].fd <= sel.maxFd
        invariant sel.maxFd == 0 || (top in bits.didConn && top < i && agents[top].fd == sel.maxFd)
      {
        top := SelectSlot(i, top);
      }
      assert Joined(bits.didConn, n) == bits.didConn;
      rc := 0;
    }

    /**
     * pf_state_perform_select: select() narrows the three sets to the ready
     * slots and returns how many it reports, or fails with -1 and leaves
     * them alone.
     */
    method PerformSelect(result: SelectResult) returns (rc: int)
      modifies this`sel
      ensures result.Ready? ==> && sel.rd == old(sel.rd) * result.rd
                                && sel.wr == old(sel.wr) * result.wr
                                && sel.er == old(sel.er) * result.er
                                && rc == |sel.rd| + |sel.wr| + |sel.er|
      ensures result.Failure? ==> rc == -1 && sel == old(sel)
      ensures sel.maxFd == old(sel.maxFd)
      ensures sel.rd <= old(sel.rd) && sel.wr <= old(sel.wr) && sel.er <= old(sel.er)
    {
      match result
      case Ready(rd, wr, er) =>
        var s := sel;
        sel := s.(rd := s.rd * rd, wr := s.wr * wr, er := s.er * er);
        rc := |sel.rd| + |sel.wr| + |sel.er|;
      case Failure(_) =>
        rc := -1;
    }

    /**
     * A connected slot that closes in pf_state_perform_io (pf_run.c:381-396):
     * closed and reset, it loses its socket and its connection, and counts
     * as completed or as failed.
     */
    method DropConnected(i: nat, success: bool)
      requires Valid() && i < conf.noAgents && i in bits.didConn
      modifies this`hasSockCount, this`didConnCount, this`bits
      modifies this`noCompleted, this`noFailed, hasSockMask, didConnMask, agents[i]
      ensures Valid()
      ensures bits.hasSock == old(bits.hasSock) - {i} && bits.didConn == old(bits.didConn) - {i}
      ensures noCompleted == old(noCompleted) + (if success then 1 else 0)
      ensures noFailed == old(noFailed) + (if success then 0 else 1)
      ensures agents[i].IsInitial(old(agents[i].conf), old(agents[i].stat))
    {
      var ctx := agents[i];
      assert forall k :: 0 <= k < |agents| && k != i ==> agents[k] != ctx;
      var rc, closed := ctx.Close();
      ctx.Reset();
      UnmarkConnected(i);
      assert ctx.HoldsSocket(false);
      if success {
        noCompleted := noCompleted + 1;
      } else {
        noFailed := noFailed + 1;
      }
    }

    /** The bits of a connected slot that closes (pf_run.c:387-390): it leaves has_sock and did_conn. */
    method UnmarkConnected(i: nat)
      requires Booked() && i < conf.noAgents && i in bits.didConn
      modifies this`hasSockCount, this`didConnCount, this`bits, hasSockMask, didConnMask
      ensures Booked()
      ensures bits == old(bits).(hasSock := old(bits.hasSock) - {i}, didConn := old(bits.didConn) - {i})
      ensures hasSockCount == old(hasSockCount) - 1 && didConnCount == old(didConnCount) - 1
    {
      BooksDropConnected(hasSockMask[..], needConnMask[..], didConnMask[..], bits.hasSock, bits.needConn, bits.didConn,
                         hasSockCount, needConnCount, didConnCount, conf.noAgents, i);
      ClearBoth(i, hasSockMask, didConnMask, needConnMask);
      bits := bits.(hasSock := bits.hasSock - {i}, didConn := bits.didConn - {i});
      hasSockCount, didConnCount := hasSockCount - 1, didConnCount - 1;
    }

    /**
     * The body of the loop in pf_state_perform_io for slot `i`: read when
     * readable, send when writable and still wanted, an exception on a
     * slot still open ends the process, and a closing slot is retired.
     */
    method ServeSlot(i: nat, readRc: int, writeRc: int) returns (o: AgentIo)
      requires Valid() && i < conf.noAgents
      requires i in sel.rd || i in sel.wr || i in sel.er ==> i in bits.didConn
      modifies this`hasSockCount, this`didConnCount, this`bits
      modifies this`noCompleted, this`noFailed, hasSockMask, didConnMask, agents[i]
      ensures Valid()
      ensures o == IoOutcome(i in sel.rd, i in sel.wr, i in sel.er, old(agents[i].wantsToSendMore),
                             old(agents[i].sendCnt), old(agents[i].privateData), readRc, writeRc)
      ensures Retires(o) ==> && bits.hasSock == old(bits.hasSock) - {i} && bits.didConn == old(bits.didConn) - {i}
                             && agents[i].IsInitial(old(agents[i].conf), old(agents[i].stat))
      ensures !Retires(o) ==> && bits.hasSock == old(bits.hasSock) && bits.didConn == old(bits.didConn)
                              && agents[i].View() == ServedView(old(agents[i].View()), i in sel.rd, i in sel.wr, readRc, writeRc)
      ensures noCompleted == old(noCompleted) + (if o == Completed then 1 else 0)
      ensures noFailed == old(noFailed) + (if o == Failed then 1 else 0)
    {
      var ctx := agents[i];
      var closing, success := false, false;
      if i in sel.rd {
        var rc := Http.Recv(ctx, readRc);
        closing := rc <= 0;
        success := rc == 0;
      }
      if !closing && ctx.wantsToSendMore && i in sel.wr {
        var sent := Http.Send(ctx, writeRc);
        if sent.Abort? {
          return Fault;
        }
        closing := sent.rc <= 0;
      }
      if !closing && i in sel.er {
        return Fault;
      }
      if closing {
        DropConnected(i, success);
        o := if success then Completed else Failed;
      } else {
        o := Keep;
      }
    }

    /**
     * One pass of the loop in pf_state_perform_io, on slot `i`: the passes
     * over the slots below `i` retired the slots their outcomes close and
     * counted them; this pass serves slot `i` with outcome `outs[i]`.
     */
    method ServeNext(i: nat, readRc: nat -> int, writeRc: nat -> int,
                     ghost outs: seq<AgentIo>, ghost views: seq<CtxView>, ghost after: seq<CtxView>,
                     ghost start: SlotSets, ghost completed: nat, ghost failed: nat)
      returns (o: AgentIo)
      requires Valid() && i < conf.noAgents && |outs| == |agents| && |views| == |agents| && |after| == |agents|
      requires sel.rd <= start.didConn && sel.wr <= start.didConn && sel.er <= start.didConn
      requires outs[i] == SlotIo(sel, i, views[i], readRc, writeRc)
      requires after[i] == AfterIo(sel, i, views[i], readRc, writeRc)
      requires forall k :: 0 <= k < |agents| ==> agents[k].View() == if k < i then after[k] else views[k]
      requires bits.hasSock == start.hasSock - Retired(outs[..i])
      requires bits.didConn == start.didConn - Retired(outs[..i])
      requires noCompleted == completed + Count(outs[..i], Completed)
      requires noFailed == failed + Count(outs[..i], Failed)
      requires Fault !in outs[..i]
      modifies this`hasSockCount, this`didConnCount, this`bits
      modifies this`noCompleted, this`noFailed, hasSockMask, didConnMask, agents[i]
      ensures Valid() && o == outs[i]
      ensures forall k :: 0 <= k < |agents| ==> agents[k].View() == if k < i + 1 then after[k] else views[k]
      ensures bits.hasSock == start.hasSock - Retired(outs[..i + 1])
      ensures bits.didConn == start.didConn - Retired(outs[..i + 1])
      ensures noCompleted == completed + Count(outs[..i + 1], Completed)
      ensures noFailed == failed + Count(outs[..i + 1], Failed)
      ensures o != Fault ==> Fault !in outs[..i + 1]
    {
      RetiredStep(outs, i);
      assert forall k :: 0 <= k < |agents| && k != i ==> agents[k] != agents[i];
      o := ServeSlot(i, readRc(i), writeRc(i));
    }

    /**
     * pf_state_perform_io: every slot in turn, lowest first. An exception
     * on an open slot, or a send with no request, ends the process.
     */
    method PerformIo(readRc: nat -> int, writeRc: nat -> int) returns (r: Ret)
      requires Valid() && sel.rd <= bits.didConn && sel.wr <= bits.didConn && sel.er <= bits.didConn
      modifies this`hasSockCount, this`didConnCount, this`bits
      modifies this`noCompleted, this`noFailed, hasSockMask, didConnMask, Slots()
      ensures Valid()
      ensures var outs := IoOutcomes(sel, old(Views()), readRc, writeRc);
              && (r.Abort? <==> Fault in outs)
              && (r.Ret? ==> && r.rc == 0
                             && bits.hasSock == old(bits.hasSock) - Retired(outs)
                             && bits.didConn == old(bits.didConn) - Retired(outs)
                             && noCompleted == old(noCompleted) + Count(outs, Completed)
                             && noFailed == old(noFailed) + Count(outs, Failed))
      ensures r.Ret? ==> forall k :: 0 <= k < |agents| ==>
                agents[k].View() == AfterIo(sel, k, old(agents[k].View()), readRc, writeRc)
    {
      var n := conf.noAgents;
      ghost var s, views := sel, Views();
      ghost var outs := IoOutcomes(s, views, readRc, writeRc);
      ghost var after := seq(|agents|, k requires 0 <= k < |agents| => AfterIo(s, k, views[k], readRc, writeRc));
      for i := 0 to n
        invariant Valid()
        invariant Fault !in outs[..i]
        invariant forall k :: 0 <= k < |agents| ==> agents[k].View() == if k < i then after[k] else views[k]
        invariant bits.hasSock == old(bits.hasSock) - Retired(outs[..i])
        invariant bits.didConn == old(bits.didConn) - Retired(outs[..i])
        invariant noCompleted == old(noCompleted) + Count(outs[..i], Completed)
        invariant noFailed == old(noFailed) + Count(outs[..i], Failed)
      {
        var o := ServeNext(i, readRc, writeRc, outs, views, after, old(bits), old(noCompleted), old(noFailed));
        if o == Fault {
          return Abort;
        }
      }
      assert outs[..n] == outs;
      r := Ret(0);
    }

    /**
     * The first half of an iteration of the loop in pf_run
     * (pf_run.c:90-102): every free slot gets a socket and the waiting slots
     * connect; Abort when a socket() fails.
     */
    method Establish(step: Round) returns (r: Ret)
      requires Valid()
      modifies this`hasSockCount, this`needConnCount, this`didConnCount, this`noFailed
      modifies this`bits, hasSockMask, needConnMask, didConnMask, Slots()
      ensures Valid()
      ensures r.Abort? <==> exists k: nat :: k < conf.noAgents && k !in old(bits.hasSock) && step.socketRc(k) < 0
    {
      r := OpenSockets(step.socketRc);
      if r.Abort? {
        return;
      }
      var rc := CreateConnections(step.connectRc);
    }

    /**
     * pf_state_prepare_for_io then pf_state_perform_select: the sets are
     * those of the connected slots that select() reports ready, and the
     * result is negative exactly when select() fails.
     */
    method Poll(result: SelectResult) returns (rc: int)
      requires Valid()
      modifies this`sel
      ensures Valid()
      ensures sel.rd <= bits.didConn && sel.wr <= bits.didConn && sel.er <= bits.didConn
      ensures result.Ready? ==> sel.rd <= result.rd && sel.wr <= result.wr && sel.er <= result.er
      ensures rc < 0 <==> result.Failure?
      ensures result.Failure? ==> rc == -1
    {
      rc := PrepareForIo();
      rc := PerformSelect(result);
    }

    /**
     * The second half of an iteration of the loop in pf_run
     * (pf_run.c:104-126): select on the connected slots and serve them.
     * None when the loop goes on, otherwise how pf_run ends.
     */
    method Exchange(step: Round) returns (stop: Option<RunResult>)
      requires Valid()
      modifies this`hasSockCount, this`didConnCount, this`noFailed, this`noCompleted
      modifies this`bits, this`sel, hasSockMask, didConnMask, Slots()
      ensures Valid()
      ensures stop == None || stop == Some(Aborted) || stop.value.Error?
      ensures stop.Some? && stop.value.Error? <==> step.select.Failure? && step.select.errno != EINTR
      ensures stop.Some? && stop.value.Error? ==> stop.value.rc == -1
      ensures step.select.Failure? && step.select.errno == EINTR ==> stop == None
      ensures stop == Some(Aborted) ==> step.select.Ready? && (step.select.er != {} || step.select.wr != {})
    {
      var rc := Poll(step.select);
      if rc < 0 {
        if step.select.errno == EINTR {
          return None;
        }
        return Some(Error(rc));
      }
      ghost var views := Views();
      var served := PerformIo(step.readRc, step.writeRc);
      if served.Abort? {
        FaultReported(sel, views, step.readRc, step.writeRc);
        return Some(Aborted);
      }
      stop := None;
    }
  }

  /**
   * pf_run: set up the worker's state, then run the phases once per entry
   * of `rounds` while fewer than no_connections slots completed. A select()
   * interrupted by a signal (EINTR) starts the next iteration; any other
   * select() failure ends the run with its result. `k` is the number of
   * iterations begun.
   */
  method PfRun(conf: Conf, stat: StatRef, rounds: seq<Round>) returns (res: RunResult, st: State, k: nat)
    ensures st.Valid() && k <= |rounds|
    ensures res == Done ==> st.noCompleted >= conf.noConnections
    ensures res == OutOfRounds ==> k == |rounds| && st.noCompleted < conf.noConnections
    ensures res.Error? ==> && k < |rounds| && res.rc < 0
                           && rounds[k].select.Failure? && rounds[k].select.errno != EINTR
    ensures res == Aborted ==> && k < |rounds|
                               && ((exists j: nat :: j < conf.noAgents && rounds[k].socketRc(j) < 0)
                                   || (rounds[k].select.Ready? && (rounds[k].select.er != {} || rounds[k].select.wr != {})))
  {
    st := new State(conf, stat);
    k := 0;
    while st.noCompleted < conf.noConnections
      invariant st.Valid() && k <= |rounds| && st.conf == conf
      invariant fresh(st.Slots()) && fresh(st.hasSockMask) && fresh(st.needConnMask) && fresh(st.didConnMask)
      decreases |rounds| - k
    {
      if k == |rounds| {
        return OutOfRounds, st, k;
      }
      var established := st.Establish(rounds[k]);
      if established.Abort? {
        return Aborted, st, k;
      }
      var stop := st.Exchange(rounds[k]);
      if stop.Some? {
        return stop.value, st, k;
      }
      k := k + 1;
    }
    res := Done;
  }
}
