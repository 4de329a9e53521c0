/// The request http_init builds (pf_http.c): a pure function of the configured path.
module HttpRequest {
  import opened Config

  /** pf_http_t: the request text and the length asprintf reported for it. */
  datatype HttpPriv = HttpPriv(reqLen: nat, request: string)

  const RequestHead: string := "GET "
  const RequestTail: string := " HTTP/1.0\nUser-Agent: pf\n\n"

  /** The path in the request line: conf->path, or "/" when it is NULL. */
  function PathOrRoot(path: Option<string>): string {
    match path
    case Some(p) => p
    case None => "/"
  }

  /** The text http_init formats with asprintf. */
  function Request(path: Option<string>): (req: string)
    ensures |req| == |RequestHead| + |PathOrRoot(path)| + |RequestTail|
  {
    RequestHead + PathOrRoot(path) + RequestTail
  }

  /** Reads the path back out of a text shaped like a request `Request` builds. */
  function RequestedPath(req: string): Option<string> {
    if |RequestHead| + |RequestTail| <= |req|
       && req[..|RequestHead|] == RequestHead
       && req[|req| - |RequestTail|..] == RequestTail
    then Some(req[|RequestHead|..|req| - |RequestTail|])
    else None
  }

  /** The request line names the configured path, or "/" when there is none. */
  lemma RequestNamesPath(path: Option<string>)
    ensures RequestedPath(Request(path)) == Some(PathOrRoot(path))
  {
    var req := Request(path);
    var p := PathOrRoot(path);
    assert req[..|RequestHead|] == RequestHead;
    assert req[|req| - |RequestTail|..] == RequestTail;
    assert req[|RequestHead|..|req| - |RequestTail|] == p;
  }

  /** Every text of the request shape is the request for the path it names. */
  lemma RequestFromPath(req: string)
    requires RequestedPath(req).Some?
    ensures Request(RequestedPath(req)) == req
  {
    var p := RequestedPath(req).value;
    assert req == req[..|RequestHead|] + p + req[|req| - |RequestTail|..];
  }

  /** http_init's private data: the request for the configured path and its length. */
  function Init(conf: Conf): (priv: HttpPriv)
    ensures priv.reqLen == |priv.request| > 0
    ensures RequestedPath(priv.request) == Some(PathOrRoot(conf.path))
  {
    var req := Request(conf.path);
    RequestNamesPath(conf.path);
    HttpPriv(|req|, req)
  }
}

/// The HTTP data handlers of pf_http.c as they act on a slot. read() and
/// write() are not performed: what they returned is a parameter.
module Http {
  import opened Config
  import opened HttpRequest
  import opened Context

  /** EIO from errno.h. */
  const EIO: int := 5

  /** What http_recv leaves in a slot when read() returned `readRc`. */
  function AfterRecv(v: CtxView, readRc: int): (w: CtxView)
    ensures readRc > 0 ==> w.recvCnt == v.recvCnt + 1 && w.recvBytes == v.recvBytes + readRc
    ensures readRc <= 0 ==> w == v
    ensures w.(recvCnt := v.recvCnt, recvBytes := v.recvBytes) == v
  {
    if readRc > 0 then v.(recvCnt := v.recvCnt + 1, recvBytes := v.recvBytes + readRc) else v
  }

  /**
   * What http_send leaves in a slot when write() returned `writeRc`: nothing
   * changes once the request went out (or when there is none); otherwise
   * wants_to_send_more is cleared and a positive write is counted.
   */
  function AfterSend(v: CtxView, writeRc: int): (w: CtxView)
    ensures v.sendCnt != 0 || v.privateData.None? ==> w == v
    ensures v.sendCnt == 0 && v.privateData.Some? ==>
      && !w.wantsToSendMore
      && w.sendCnt == (if writeRc > 0 then 1 else 0)
      && w.sendBytes == v.sendBytes + (if writeRc > 0 then writeRc else 0)
    ensures w.(sendCnt := v.sendCnt, sendBytes := v.sendBytes, wantsToSendMore := v.wantsToSendMore) == v
  {
    if v.sendCnt != 0 || v.privateData.None? then v
    else if writeRc > 0 then v.(sendCnt := v.sendCnt + 1, sendBytes := v.sendBytes + writeRc, wantsToSendMore := false)
    else v.(wantsToSendMore := false)
  }

  /** http_connected: the slot now wants to send its request. */
  method Connected(ctx: Ctx) returns (rc: int)
    modifies ctx`wantsToSendMore
    ensures ctx.wantsToSendMore && rc == 0
    ensures ctx.View() == old(ctx.View()).(wantsToSendMore := true)
  {
    ctx.wantsToSendMore := true;
    rc := 0;
  }

  /** http_recv: `readRc` is what read() returned; it is passed back unchanged. */
  method Recv(ctx: Ctx, readRc: int) returns (rc: int)
    modifies ctx`recvCnt, ctx`recvBytes
    ensures rc == readRc
    ensures ctx.View() == AfterRecv(old(ctx.View()), readRc)
    ensures readRc > 0 ==> ctx.recvCnt == old(ctx.recvCnt) + 1 && ctx.recvBytes == old(ctx.recvBytes) + readRc
    ensures readRc <= 0 ==> ctx.recvCnt == old(ctx.recvCnt) && ctx.recvBytes == old(ctx.recvBytes)
  {
    rc := readRc;
    if rc > 0 {
      ctx.recvCnt := ctx.recvCnt + 1;
      ctx.recvBytes := ctx.recvBytes + rc;
    }
  }

  /**
   * What http_send returns, from the slot's send count before the call, its
   * private data and what write() returned. With no private data (do_init
   * never ran) the C code dereferences NULL, which ends the process.
   */
  function SendResult(sendCnt: nat, priv: Option<HttpPriv>, writeRc: int): (r: Ret)
    ensures sendCnt != 0 ==> r == Ret(0)
    ensures sendCnt == 0 ==> (r.Abort? <==> priv.None?)
    ensures r.Ret? && r.rc > 0 ==> priv.Some? && r.rc == writeRc == priv.value.reqLen
    ensures sendCnt == 0 && priv.Some? && writeRc >= 0 && writeRc != priv.value.reqLen ==> r == Ret(-EIO)
    ensures sendCnt == 0 && priv.Some? && writeRc < 0 ==> r == Ret(writeRc)
  {
    if sendCnt != 0 then Ret(0)
    else if priv.None? then Abort
    else if writeRc >= 0 && writeRc != priv.value.reqLen then Ret(-EIO)
    else Ret(writeRc)
  }

  /**
   * http_send: `writeRc` is what write() returned. The request goes out at
   * most once; a short write is reported as -EIO.
   */
  method Send(ctx: Ctx, writeRc: int) returns (r: Ret)
    modifies ctx`sendCnt, ctx`sendBytes, ctx`wantsToSendMore
    ensures r == SendResult(old(ctx.sendCnt), ctx.privateData, writeRc)
    ensures ctx.View() == AfterSend(old(ctx.View()), writeRc)
    ensures old(ctx.sendCnt) != 0 || r.Abort? ==> unchanged(ctx)
    ensures old(ctx.sendCnt) == 0 && r.Ret? ==>
      && !ctx.wantsToSendMore
      && ctx.sendCnt == (if writeRc > 0 then 1 else 0)
      && ctx.sendBytes == old(ctx.sendBytes) + (if writeRc > 0 then writeRc else 0)
  {
    if ctx.sendCnt != 0 {
      return Ret(0);
    }
    if ctx.privateData.None? {
      return Abort;
    }
    var http := ctx.privateData.value;
    var rc := writeRc;
    if rc > 0 {
      ctx.sendCnt := ctx.sendCnt + 1;
      ctx.sendBytes := ctx.sendBytes + rc;
    }
    if rc >= 0 && rc != http.reqLen {
      rc := -EIO;
    }
    ctx.wantsToSendMore := false;
    r := Ret(rc);
  }

  /**
   * A fresh slot whose configuration leaves do_init NULL, as pf_main.c
   * sets it up, has no request, so its first http_send ends the process
   * whatever write() would have returned.
   */
  lemma SendWithoutInitFaults(c: Conf, writeRc: int)
    requires !c.doInit
    ensures SendResult(0, Ctx.InitData(c), writeRc) == Abort
  {
  }

  /**
   * With do_init set to http_init, the first http_send on a fresh slot
   * returns: the whole request written is its length, anything shorter is
   * -EIO, and a failed write() passes through.
   */
  lemma SendAfterInitReturns(c: Conf, writeRc: int)
    requires c.doInit
    ensures SendResult(0, Ctx.InitData(c), writeRc).Ret?
    ensures writeRc == |Request(c.path)| ==> SendResult(0, Ctx.InitData(c), writeRc) == Ret(writeRc)
    ensures 0 <= writeRc < |Request(c.path)| ==> SendResult(0, Ctx.InitData(c), writeRc) == Ret(-EIO)
    ensures writeRc < 0 ==> SendResult(0, Ctx.InitData(c), writeRc) == Ret(writeRc)
  {
  }

  /** http_closing: nothing to release; always 0. */
  method Closing(ctx: Ctx, rc: int) returns (r: int)
    ensures r == 0
  {
    r := 0;
  }
}
