/// One agent slot (pf_ctx_t) and its lifecycle operations (pf_ctx.c).
module Context {
  import opened Config
  import HttpRequest

  /** The slot's lifecycle state; the code refers only to PF_CTX_AVAIL. */
  datatype CtxState = Avail

  /** The fields of a slot as a value: what a phase of the engine leaves in it. */
  datatype CtxView = CtxView(
    conf: Conf, stat: StatRef, fd: int,
    sendCnt: nat, sendBytes: nat, recvCnt: nat, recvBytes: nat,
    wantsToSendMore: bool, state: CtxState, privateData: Option<HttpRequest.HttpPriv>)

  class Ctx {
    var conf: Conf
    /** The shared counters the slot reports to. */
    var stat: StatRef
    /** The socket, or -1 when the slot holds none. */
    var fd: int
    var sendCnt: nat
    var sendBytes: nat
    var recvCnt: nat
    var recvBytes: nat
    var wantsToSendMore: bool
    var state: CtxState
    /** What do_init attached (the HTTP request), or None for NULL. */
    var privateData: Option<HttpRequest.HttpPriv>

    /** What do_init leaves in the slot: http_init's request when the hook is set, NULL otherwise. */
    static function InitData(c: Conf): (d: Option<HttpRequest.HttpPriv>)
      ensures d.Some? <==> c.doInit
      ensures d.Some? ==> HttpRequest.RequestedPath(d.value.request) == Some(HttpRequest.PathOrRoot(c.path))
    {
      if c.doInit then Some(HttpRequest.Init(c)) else None
    }

    /** The slot's fields as a value. */
    ghost function View(): CtxView
      reads this
    {
      CtxView(conf, stat, fd, sendCnt, sendBytes, recvCnt, recvBytes, wantsToSendMore, state, privateData)
    }

    /** The state pf_ctx_init leaves: zeroed, no socket, AVAIL, with `c` and `s` stored. */
    static function Initial(c: Conf, s: StatRef): (v: CtxView)
      ensures v.fd == -1 && !v.wantsToSendMore && v.sendCnt == 0 && v.privateData == InitData(c)
    {
      CtxView(c, s, -1, 0, 0, 0, 0, false, Avail, InitData(c))
    }

    /** Whether the descriptor agrees with holding a socket: open (fd >= 0) or closed (fd == -1). */
    ghost predicate HoldsSocket(open: bool)
      reads this`fd
    {
      if open then fd >= 0 else fd == -1
    }

    /** Whether the slot is in the state pf_ctx_init leaves for `c` and `s`. */
    ghost predicate IsInitial(c: Conf, s: StatRef)
      reads this
    {
      View() == Initial(c, s)
    }

    /** A slot of the calloc'd agents array, then pf_ctx_init on it (pf_run.c:155, 172-173). */
    constructor (c: Conf, s: StatRef)
      ensures IsInitial(c, s)
    {
      conf, stat, fd := c, s, 0;
      sendCnt, sendBytes, recvCnt, recvBytes := 0, 0, 0, 0;
      wantsToSendMore, state, privateData := false, Avail, None;
      new;
      var rc := Init(c, s);
    }

    /**
     * pf_ctx_init: clear every field, store conf and stat, mark the slot
     * socketless and AVAIL, then run do_init when it is set. The only
     * do_init there is, http_init, returns 0, so the result is 0 either way.
     */
    method Init(c: Conf, s: StatRef) returns (rc: int)
      modifies this
      ensures IsInitial(c, s)
      ensures rc == 0
    {
      sendCnt, sendBytes, recvCnt, recvBytes := 0, 0, 0, 0;
      wantsToSendMore, privateData := false, None;
      conf := c;
      stat := s;
      fd := -1;
      state := Avail;
      rc := 0;
      if c.doInit {
        privateData := Some(HttpRequest.Init(c));
        rc := 0;
      }
    }

    /** pf_ctx_reset: pf_ctx_init again with the slot's own conf and stat. */
    method Reset()
      modifies this
      ensures IsInitial(old(conf), old(stat))
    {
      var c, s := conf, stat;
      var rc := Init(c, s);
    }

    /**
     * pf_ctx_socket (declared as pf_ctx_new): `sysRc` is what socket()
     * returned. A failure BAILs; otherwise the descriptor is stored and returned.
     */
    method Socket(sysRc: int) returns (r: Ret)
      modifies this`fd
      ensures r.Abort? <==> sysRc < 0
      ensures r.Ret? ==> r.rc >= 0 && r.rc == sysRc && fd == sysRc
      ensures r.Abort? ==> fd == old(fd)
    {
      if sysRc < 0 {
        return Abort;
      }
      fd := sysRc;
      r := Ret(sysRc);
    }

    /**
     * pf_ctx_connect as written: `sysRc` is what connect() returned, and a
     * failure BAILs, so no negative value ever reaches the caller.
     */
    static function Connect(sysRc: int): (r: Ret)
      ensures r.Abort? <==> sysRc < 0
      ensures r.Ret? ==> r.rc == sysRc && r.rc >= 0
    {
      if sysRc < 0 then Abort else Ret(sysRc)
    }

    /**
     * pf_ctx_connect as pf_state_create_connections expects it: the result
     * of connect() is handed back, so a failure reaches the caller's
     * drop-the-slot branch instead of ending the process. It agrees with
     * `Connect` whenever that one returns.
     */
    static function ConnectReported(sysRc: int): (rc: int)
      ensures rc < 0 <==> Connect(sysRc).Abort?
      ensures Connect(sysRc).Ret? ==> rc == Connect(sysRc).rc
    {
      sysRc
    }

    /**
     * pf_ctx_close: close() the socket if there is one, and forget it.
     * `closedFd` is the descriptor handed to close(), if close() was called.
     */
    method Close() returns (rc: int, ghost closedFd: Option<int>)
      modifies this`fd
      ensures fd == -1 && rc == 0
      ensures closedFd == if old(fd) != -1 then Some(old(fd)) else None
    {
      closedFd := None;
      if fd != -1 {
        closedFd := Some(fd);
      }
      fd := -1;
      rc := 0;
    }
  }

  /**
   * Closing a slot twice: the second pf_ctx_close finds no socket, so it
   * calls close() no more, and both return 0.
   */
  method CloseTwice(ctx: Ctx) returns (rc1: int, rc2: int, ghost second: Option<int>)
    modifies ctx
    ensures ctx.fd == -1 && rc1 == 0 && rc2 == 0 && second == None
  {
    ghost var first: Option<int>;
    rc1, first := ctx.Close();
    rc2, second := ctx.Close();
  }

  /**
   * A connect() that fails with -1: as written pf_ctx_connect ends the
   * process, where pf_state_create_connections expects -1 back.
   */
  lemma ConnectFailureEndsProcess()
    ensures Ctx.Connect(-1) == Abort && Ctx.ConnectReported(-1) == -1
  {
  }

  /** Resetting a slot twice leaves it as resetting it once. */
  method ResetTwice(ctx: Ctx)
    modifies ctx
    ensures ctx.IsInitial(old(ctx.conf), old(ctx.stat))
  {
    ctx.Reset();
    ctx.Reset();
  }
}
