/**
 * The per-flow UDP session: a bounded FIFO of frames waiting to go to the
 * SOCKS5 relay, the two forwarding directions and the splice loop that
 * drives them.  Every call into the SOCKS5 library, the kernel, the
 * transparent-socket cache and the scheduler is replaced by the outcome it
 * returned, supplied by the caller.
 */
module SessionUdp {
  import opened Wrappers
  import opened Addr

  /** A payload buffer, identified by the allocation that produced it. */
  type BufId = nat

  /** One queued datagram: destination, owned payload buffer and its length. */
  datatype Frame = Frame(addr: Sa6, data: BufId, len: nat)

  /** The payload buffers owned by a list of frames, in list order. */
  function Payloads(fs: seq<Frame>): (r: seq<BufId>)
    ensures |r| == |fs| && forall i :: 0 <= i < |fs| ==> r[i] == fs[i].data
  {
    seq(|fs|, i requires 0 <= i < |fs| => fs[i].data)
  }

  /** Which finalizer a session's class descriptor points at. */
  datatype SessionClass = BaseSession | UdpSession

  /** What `hev_socks5_session_udp_fwd_f` returns for a relay send result. */
  function SendResult(sendRes: int): (r: int)
    ensures r != 0
    ensures r < 0 <==> sendRes <= 0
    ensures r < 0 ==> r == -1
    ensures r > 0 ==> r == sendRes
  {
    if sendRes <= 0 then -1 else sendRes
  }

  /** A system call's return value together with whether errno was EAGAIN. */
  datatype SysResult = SysResult(res: int, eagain: bool)

  predicate WouldBlock(s: SysResult) { s.res < 0 && s.eagain }

  /**
   * The outcomes of the calls one backward step can make, in call order:
   * the relay's descriptor, the one-byte MSG_PEEK `recv` on it, the relay's
   * `recvfrom` (its result and the sender address it recovered), the
   * transparent-socket cache lookup for that sender and the kernel `sendto`
   * on the socket it returned.
   */
  datatype BackEnv = BackEnv(fd: int, peek: SysResult, recvRes: int, src: Sa6, cached: int, send: SysResult)

  /** A kernel `sendto` call: the socket, the destination and the length. */
  datatype Delivery = Delivery(sock: int, dest: Sa6, len: int)

  /** The result of a backward step and the `sendto` it attempted, if it got that far. */
  datatype BackStep = BackStep(res: int, sendto: Option<Delivery>)

  /**
   * `hev_socks5_session_udp_fwd_b`.  `e.cached` is what the
   * transparent-socket cache returned for the sender `e.src` the relay
   * reported; `clientAddr` is the session's own client address, where every
   * reply goes.
   */
  function FwdB(e: BackEnv, clientAddr: Sa6): (r: BackStep)
    ensures r.res == -1 || r.res == 0 || r.res == 1
    ensures r.sendto.Some? <==> e.fd >= 0 && e.peek.res > 0 && e.recvRes > 0 && e.cached >= 0
    ensures r.sendto.Some? ==> r.sendto.value == Delivery(e.cached, clientAddr, e.recvRes)
    ensures r.res == 0 <==> (e.fd >= 0 && WouldBlock(e.peek)) || (r.sendto.Some? && WouldBlock(e.send))
    ensures r.res == 1 <==> r.sendto.Some? && e.send.res > 0
  {
    if e.fd < 0 then BackStep(-1, None)
    else if e.peek.res <= 0 then
      (if WouldBlock(e.peek) then BackStep(0, None) else BackStep(-1, None))
    else if e.recvRes <= 0 then BackStep(-1, None)
    else
      var fd := e.cached;
      if fd < 0 then BackStep(-1, None)
      else
        var d := Delivery(fd, clientAddr, e.recvRes);
        if e.send.res <= 0 then
          (if WouldBlock(e.send) then BackStep(0, Some(d)) else BackStep(-1, Some(d)))
        else BackStep(1, Some(d))
  }

  /** What the splice loop does after a turn. */
  datatype Decision = ExitLoop | Yield | WaitIo

  /** The splice loop's choice from the two direction results of a turn. */
  function Decide(resF: int, resB: int): (d: Decision)
    ensures d == ExitLoop <==> resF < 0 || resB < 0
    ensures d == WaitIo <==> resF == 0 && resB == 0
    ensures d == Yield <==> resF >= 0 && resB >= 0 && (resF > 0 || resB > 0)
  {
    if resF < 0 || resB < 0 then ExitLoop
    else if resF > 0 || resB > 0 then Yield
    else WaitIo
  }

  /** The outcomes supplied for one turn: relay send, backward step, yielder. */
  datatype TurnEnv = TurnEnv(send: int, back: BackEnv, yielded: int)

  /**
   * One turn as it happened: which directions were called, their results,
   * the frame handed to the relay, the decision and the yielder's result
   * (None when the loop broke before yielding).
   */
  datatype TurnLog = TurnLog(calledF: bool, calledB: bool, resF: int, resB: int,
                             fwd: Option<Frame>, decision: Decision, yielder: Option<int>)

  /** The loop goes on after this turn. */
  predicate Continues(l: TurnLog) { l.yielder.Some? && l.yielder.value >= 0 }

  /** The turn's results are those of the calls it made with its supplied outcomes. */
  predicate TurnFits(l: TurnLog, e: TurnEnv, clientAddr: Sa6)
  {
    && l.resF == (if l.fwd.Some? then SendResult(e.send) else 0)
    && l.resB == FwdB(e.back, clientAddr).res
    && l.decision == Decide(l.resF, l.resB)
    && l.yielder == (if l.decision == ExitLoop then None else Some(e.yielded))
  }

  /** The frames handed to the relay over a run, in turn order. */
  function Forwarded(trace: seq<TurnLog>): seq<Frame>
  {
    if trace == [] then []
    else
      var last := trace[|trace| - 1];
      Forwarded(trace[..|trace| - 1]) + (if last.fwd.Some? then [last.fwd.value] else [])
  }

  lemma ForwardedSnoc(trace: seq<TurnLog>, l: TurnLog)
    ensures Forwarded(trace + [l]) == Forwarded(trace) + (if l.fwd.Some? then [l.fwd.value] else [])
  {
    assert (trace + [l])[..|trace|] == trace;
  }

  /** Every turn of `trace` called both directions and fits the outcomes supplied for it. */
  predicate AllTurnsFit(trace: seq<TurnLog>, env: seq<TurnEnv>, clientAddr: Sa6)
  {
    && |trace| <= |env|
    && forall t :: 0 <= t < |trace| ==>
         trace[t].calledF && trace[t].calledB && TurnFits(trace[t], env[t], clientAddr)
  }

  /** The loop went on after every turn but the last. */
  predicate ContinuesBeforeLast(trace: seq<TurnLog>)
  {
    forall t :: 0 <= t < |trace| - 1 ==> Continues(trace[t])
  }

  /** Some turn found the queue empty. */
  predicate Drained(trace: seq<TurnLog>)
  {
    exists t :: 0 <= t < |trace| && trace[t].fwd.None?
  }

  /** Once a turn finds the queue empty, every later turn does too. */
  predicate EmptyStaysEmpty(trace: seq<TurnLog>)
  {
    forall i, j :: 0 <= i < j < |trace| && trace[i].fwd.None? ==> trace[j].fwd.None?
  }

  /** How the trace predicates extend by one turn. */
  lemma SnocFacts(trace: seq<TurnLog>, l: TurnLog, env: seq<TurnEnv>,
                  clientAddr: Sa6, wasEmpty: bool)
    requires AllTurnsFit(trace, env, clientAddr) && |trace| < |env|
    requires l.calledF && l.calledB && TurnFits(l, env[|trace|], clientAddr)
    requires ContinuesBeforeLast(trace) && (trace != [] ==> Continues(trace[|trace| - 1]))
    requires EmptyStaysEmpty(trace)
    requires Drained(trace) ==> wasEmpty
    requires wasEmpty <==> l.fwd.None?
    ensures AllTurnsFit(trace + [l], env, clientAddr)
    ensures ContinuesBeforeLast(trace + [l])
    ensures EmptyStaysEmpty(trace + [l])
    ensures Drained(trace + [l]) ==> wasEmpty
  {
    var t2 := trace + [l];
    if Drained(t2) {
      var t :| 0 <= t < |t2| && t2[t].fwd.None?;
      if t < |trace| {
        assert trace[t].fwd.None?;
      }
    }
  }

  /** A UDP session (`HevSocks5SessionUDP`). */
  class Session {
    /** The client address the flow was created for. */
    const addr: Sa6
    var klass: SessionClass
    /** `frame_list`, head first. */
    var frameList: seq<Frame>
    /** `frames`, the pending-frame counter. */
    var frames: int
    /** How many times the session's task was woken by an enqueue. */
    var wakeups: nat

    /** The counter always equals the queue length. */
    ghost predicate Valid()
      reads this
    {
      frames == |frameList|
    }

    /** A zero-filled session that already carries its client address. */
    constructor Alloc(addr: Sa6)
      ensures Valid() && this.addr == addr && frameList == [] && klass == BaseSession && wakeups == 0
    {
      this.addr := addr;
      klass := BaseSession;
      frameList := [];
      frames := 0;
      wakeups := 0;
    }

    /**
     * `hev_socks5_session_udp_construct`: `baseRes` is what the base
     * constructor returned; on success the UDP class descriptor is installed.
     */
    method Construct(baseRes: int) returns (res: int)
      requires Valid()
      modifies this
      ensures Valid() && frameList == old(frameList) && wakeups == old(wakeups)
      ensures res == 0 || res == -1
      ensures res == -1 <==> baseRes < 0
      ensures res == 0 ==> klass == UdpSession
      ensures res == -1 ==> klass == old(klass)
    {
      if baseRes < 0 {
        return -1;
      }
      klass := UdpSession;
      return 0;
    }

    /**
     * `hev_socks5_session_udp_new`: the session allocation, the base
     * construction and the relay client allocation can each fail; any
     * failure yields no session.
     */
    static method New(addr: Sa6, mallocOk: bool, baseRes: int, clientOk: bool) returns (s: Session?)
      ensures s == null <==> !mallocOk || baseRes < 0 || !clientOk
      ensures s != null ==> fresh(s) && s.Valid() && s.addr == addr && s.frameList == []
                            && s.klass == UdpSession && s.wakeups == 0
    {
      if !mallocOk {
        return null;
      }
      s := new Session.Alloc(addr);
      var res := s.Construct(baseRes);
      if res < 0 {
        return null;
      }
      if !clientOk {
        return null;
      }
    }

    /**
     * `hev_socks5_session_udp_send`: refuses when more than `poolSize`
     * frames are pending or the frame cannot be allocated; otherwise takes
     * the payload, appends one frame at the tail and wakes the task.
     */
    method Send(data: BufId, len: nat, dest: Sa6, poolSize: int, allocOk: bool) returns (res: int)
      requires Valid()
      modifies this
      ensures Valid() && klass == old(klass)
      ensures res == 0 || res == -1
      ensures res == 0 <==> old(frames) <= poolSize && allocOk
      ensures res == 0 ==> frameList == old(frameList) + [Frame(dest, data, len)] && wakeups == old(wakeups) + 1
      ensures res == -1 ==> frameList == old(frameList) && wakeups == old(wakeups)
      ensures old(frames) <= poolSize + 1 ==> frames <= poolSize + 1
    {
      if frames > poolSize {
        return -1;
      }
      if !allocOk {
        return -1;
      }
      frames := frames + 1;
      frameList := frameList + [Frame(dest, data, len)];
      wakeups := wakeups + 1;
      return 0;
    }

    /**
     * `hev_socks5_session_udp_fwd_f`: hands the head frame to the relay
     * (whose send returned `sendRes`) and drops it whatever the outcome.
     */
    method FwdF(sendRes: int) returns (res: int, sent: Option<Frame>)
      requires Valid()
      modifies this
      ensures Valid() && klass == old(klass) && wakeups == old(wakeups)
      ensures old(frameList) == [] ==> res == 0 && sent.None? && frameList == []
      ensures old(frameList) != [] ==>
                sent == Some(old(frameList)[0]) && frameList == old(frameList)[1..] && res == SendResult(sendRes)
    {
      if frameList == [] {
        return 0, None;
      }
      var frame := frameList[0];
      res := sendRes;
      if res <= 0 {
        res := -1;
      }
      frameList := frameList[1..];
      frames := frames - 1;
      sent := Some(frame);
    }

    /**
     * `hev_socks5_session_udp_destruct`: walks the queue and frees every
     * frame's payload; the result lists the freed payloads.
     */
    method Destruct() returns (freed: seq<BufId>)
      requires Valid()
      ensures freed == Payloads(frameList)
      ensures |freed| == frames
    {
      freed := [];
      var i := 0;
      while i < |frameList|
        invariant 0 <= i <= |frameList|
        invariant |freed| == i
        invariant forall k :: 0 <= k < i ==> freed[k] == frameList[k].data
      {
        freed := freed + [frameList[i].data];
        i := i + 1;
      }
    }

    /**
     * `hev_socks5_session_destroy`: dispatches to the class finalizer; the
     * UDP one drains the queue, the base one owns no frames.
     */
    method Destroy() returns (freed: seq<BufId>)
      requires Valid()
      ensures klass == UdpSession ==> freed == Payloads(frameList) && |freed| == frames
      ensures klass == BaseSession ==> freed == []
    {
      match klass
      case UdpSession => freed := Destruct();
      case BaseSession => freed := [];
    }

    /**
     * One turn of the splice loop: each direction whose last result was not
     * negative is called again, then the decision is taken and, unless it
     * is to break, the yielder is called.
     */
    method Turn(e: TurnEnv, resF0: int, resB0: int) returns (log: TurnLog, resF: int, resB: int)
      requires Valid()
      requires resF0 >= 0 && resB0 >= 0
      modifies this
      ensures Valid() && klass == old(klass) && wakeups == old(wakeups)
      ensures log.calledF && log.calledB && log.resF == resF && log.resB == resB
      ensures TurnFits(log, e, addr)
      ensures Continues(log) ==> resF >= 0 && resB >= 0
      ensures old(frameList) == [] ==> log.fwd.None? && frameList == []
      ensures old(frameList) != [] ==> log.fwd == Some(old(frameList)[0]) && frameList == old(frameList)[1..]
    {
      resF, resB := resF0, resB0;
      var calledF, calledB := false, false;
      var fwd: Option<Frame> := None;
      if resF >= 0 {
        resF, fwd := FwdF(e.send);
        calledF := true;
      }
      if resB >= 0 {
        resB := FwdB(e.back, addr).res;
        calledB := true;
      }
      var d := Decide(resF, resB);
      var y: Option<int> := None;
      if d != ExitLoop {
        y := Some(e.yielded);
      }
      log := TurnLog(calledF, calledB, resF, resB, fwd, d, y);
    }

    /**
     * `hev_socks5_session_udp_splice`: runs both directions each turn and
     * then breaks, yields or waits for I/O.  The loop runs until it breaks
     * or the supplied turns run out.
     */
    method Splice(env: seq<TurnEnv>) returns (trace: seq<TurnLog>)
      requires Valid()
      modifies this
      ensures Valid() && klass == old(klass) && wakeups == old(wakeups)
      ensures |trace| <= |env| && (env != [] ==> trace != [])
      ensures AllTurnsFit(trace, env, addr)
      ensures ContinuesBeforeLast(trace)
      ensures |trace| < |env| ==> !Continues(trace[|trace| - 1])
      ensures |Forwarded(trace)| <= |old(frameList)|
      ensures Forwarded(trace) == old(frameList)[..|Forwarded(trace)|]
      ensures frameList == old(frameList)[|Forwarded(trace)|..]
      ensures EmptyStaysEmpty(trace)
      ensures Drained(trace) ==> frameList == []
    {
      var resF, resB := 1, 1;
      trace := [];
      var running := true;
      ghost var q0 := frameList;
      while running && |trace| < |env|
        invariant |trace| <= |env|
        invariant Valid() && klass == old(klass) && wakeups == old(wakeups)
        invariant running ==> resF >= 0 && resB >= 0
        invariant !running ==> trace != [] && !Continues(trace[|trace| - 1])
        invariant trace != [] ==> (running <==> Continues(trace[|trace| - 1]))
        invariant AllTurnsFit(trace, env, addr)
        invariant ContinuesBeforeLast(trace)
        invariant |Forwarded(trace)| <= |q0|
        invariant Forwarded(trace) == q0[..|Forwarded(trace)|]
        invariant frameList == q0[|Forwarded(trace)|..]
        invariant EmptyStaysEmpty(trace)
        invariant Drained(trace) ==> frameList == []
      {
        var log;
        ghost var before := frameList;
        ghost var old_trace := trace;
        log, resF, resB := Turn(env[|trace|], resF, resB);
        assert trace != [] ==> Continues(trace[|trace| - 1]);
        trace := trace + [log];
        ForwardedSnoc(old_trace, log);
        SnocFacts(old_trace, log, env, addr, before == []);
        if log.fwd.Some? {
          assert q0[..|Forwarded(trace)|] == q0[..|Forwarded(old_trace)|] + [q0[|Forwarded(old_trace)|]];
        }
        running := Continues(log);
      }
    }
  }

  /**
   * Three datagrams queued for three destinations leave in the order they
   * were queued, one per forward step, and the counter returns to zero.
   */
  method ForwardOrderScenario(client: Sa6, d1: Sa6, d2: Sa6, d3: Sa6) returns (sent: seq<Frame>, pending: int)
    ensures sent == [Frame(d1, 1, 100), Frame(d2, 2, 200), Frame(d3, 3, 300)]
    ensures pending == 0
  {
    var s := new Session.Alloc(client);
    var r := s.Send(1, 100, d1, 8, true);
    r := s.Send(2, 200, d2, 8, true);
    r := s.Send(3, 300, d3, 8, true);
    var res, f1 := s.FwdF(100);
    var res2, f2 := s.FwdF(-1);
    var res3, f3 := s.FwdF(300);
    sent := [f1.value, f2.value, f3.value];
    pending := s.frames;
  }

  /**
   * With a pool size of one, the first two datagrams are accepted and the
   * third is refused: the queue holds one frame more than the pool size.
   */
  method CapacityScenario(client: Sa6, dest: Sa6) returns (r1: int, r2: int, r3: int, pending: int)
    ensures r1 == 0 && r2 == 0 && r3 == -1
    ensures pending == 2
  {
    var s := new Session.Alloc(client);
    r1 := s.Send(1, 10, dest, 1, true);
    r2 := s.Send(2, 10, dest, 1, true);
    r3 := s.Send(3, 10, dest, 1, true);
    pending := s.frames;
  }
}
