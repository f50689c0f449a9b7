/**
 * The UDP side of the transparent proxy: the session table, find-or-create
 * dispatch of received datagrams and the receive loop's handling of its
 * results.  The kernel's `recvmsg`, task creation and the scheduler are
 * replaced by the outcomes they produced.
 */
module Tproxy {
  import opened Wrappers
  import opened Addr
  import opened SessionUdp
  import opened SessionTree

  /** `task_io_yielder`: after yielding, -1 once `quit` has been set, otherwise 0. */
  function TaskIoYielder(quit: bool): (r: int)
    ensures r == -1 || r == 0
    ensures r == -1 <==> quit
  {
    if quit then -1 else 0
  }

  /** What the receive (and TCP accept) loop does with a call's result. */
  datatype LoopStep = Retry | Stop | Deliver

  /** -1 retries, any other non-positive result ends the loop, a positive one is handled. */
  function Classify(res: int): (k: LoopStep)
    ensures k == Retry <==> res == -1
    ensures k == Stop <==> res <= 0 && res != -1
    ensures k == Deliver <==> res > 0
  {
    if res == -1 then Retry else if res <= 0 then Stop else Deliver
  }

  /**
   * The outcomes of creating a UDP session: the session allocation, the
   * base constructor's result, the relay client allocation and the task
   * allocation.
   */
  datatype NewOutcome = NewOutcome(mallocOk: bool, baseRes: int, clientOk: bool, taskOk: bool)
  {
    predicate Succeeds() { mallocOk && baseRes >= 0 && clientOk && taskOk }
  }

  /** The outcome of one `recvmsg` and of what its datagram leads to. */
  datatype RecvEvent = RecvEvent(res: int, saddr: Sa6, orig: Option<OrigDst>,
                                 create: NewOutcome, allocOk: bool)

  /**
   * The receive loop's account of the buffers of its first `turns` turns,
   * allocations `first` to `first + turns - 1`: each was either freed or
   * queued, never both, and nothing else was.
   */
  ghost predicate Ledger(first: nat, turns: nat, freed: seq<BufId>, queued: seq<BufId>)
  {
    && (forall b :: first <= b < first + turns ==> (b in freed <==> b !in queued))
    && (forall b :: b in freed || b in queued ==> first <= b < first + turns)
  }

  lemma LedgerFree(first: nat, turns: nat, freed: seq<BufId>, queued: seq<BufId>)
    requires Ledger(first, turns, freed, queued)
    ensures Ledger(first, turns + 1, freed + [first + turns], queued)
  {
  }

  lemma LedgerQueue(first: nat, turns: nat, freed: seq<BufId>, queued: seq<BufId>)
    requires Ledger(first, turns, freed, queued)
    ensures Ledger(first, turns + 1, freed, queued + [first + turns])
  {
  }

  /**
   * The owner of each queued buffer, allocation `first + t`, is the session
   * for the source address of event `t`.
   */
  ghost predicate Addressed(queued: seq<BufId>, owners: seq<Session>, events: seq<RecvEvent>, first: nat, turns: nat)
  {
    && |owners| == |queued|
    && forall i :: 0 <= i < |queued| ==>
         (var t := queued[i] - first; 0 <= t < turns <= |events| && owners[i].addr == events[t].saddr)
  }

  lemma AddressedSnoc(queued: seq<BufId>, owners: seq<Session>, events: seq<RecvEvent>, first: nat, turns: nat,
                      target: Session)
    requires Addressed(queued, owners, events, first, turns) && turns < |events|
    requires target.addr == events[turns].saddr
    ensures Addressed(queued + [first + turns], owners + [target], events, first, turns + 1)
  {
  }

  lemma AddressedMore(queued: seq<BufId>, owners: seq<Session>, events: seq<RecvEvent>, first: nat, turns: nat)
    requires Addressed(queued, owners, events, first, turns) && turns < |events|
    ensures Addressed(queued, owners, events, first, turns + 1)
  {
  }

  /** Each queued buffer `queued[i]` is in the queue `q[owners[i]]` of its session. */
  ghost predicate OwnsIn(q: map<Session, seq<BufId>>, queued: seq<BufId>, owners: seq<Session>)
  {
    && |owners| == |queued|
    && forall i :: 0 <= i < |queued| ==> owners[i] in q && queued[i] in q[owners[i]]
  }

  /** No queue of `q` holds buffer `b`. */
  ghost predicate NotQueuedIn(q: map<Session, seq<BufId>>, b: BufId)
  {
    forall x :: x in q ==> b !in q[x]
  }

  /** Every buffer in a queue of `q` is older than allocation `n`. */
  ghost predicate AllBelowIn(q: map<Session, seq<BufId>>, n: int)
  {
    forall x, b :: x in q && b in q[x] ==> b < n
  }

  /**
   * A dispatch turns the queues `q0` into `q1` by appending buffer `buf` to
   * the queue of `target` or appending nothing (a new session starts
   * empty).  Buffers queued earlier stay queued, buffers out of every queue
   * stay out unless they are `buf`, and `buf` is queued exactly on `target`
   * when it was appended.
   */
  lemma QueuesAfterDispatch(q0: map<Session, seq<BufId>>, q1: map<Session, seq<BufId>>, target: Session?,
                            buf: BufId, added: bool, queued: seq<BufId>, owners: seq<Session>, freed: seq<BufId>)
    requires OwnsIn(q0, queued, owners) && AllBelowIn(q0, buf)
    requires buf !in freed && forall b :: b in freed ==> NotQueuedIn(q0, b)
    requires q0.Keys <= q1.Keys
    requires added ==> target != null && target in q1
    requires forall x :: x in q1 ==>
               q1[x] == (if x in q0 then q0[x] else []) + (if x == target && added then [buf] else [])
    ensures AllBelowIn(q1, buf + 1) && forall b :: b in freed ==> NotQueuedIn(q1, b)
    ensures !added ==> OwnsIn(q1, queued, owners) && NotQueuedIn(q1, buf)
    ensures added ==> target != null && OwnsIn(q1, queued + [buf], owners + [target])
  {
    if added {
      assert buf in q1[target];
    }
  }

  /** Appending a frame appends its buffer to the payloads. */
  lemma PayloadsSnoc(fs: seq<Frame>, f: Frame)
    ensures Payloads(fs + [f]) == Payloads(fs) + [f.data]
  {
  }

  /** The global session table `udp_set`. */
  class Table {
    var root: Tree
    /** The sessions in the tree. */
    ghost var Repr: set<Session>

    /** Ordered by client address; every session is a valid UDP session. */
    ghost predicate Valid()
      reads this, Repr
    {
      && Repr == Sessions(root)
      && Ordered(root)
      && forall x :: x in Repr ==> x.Valid() && x.klass == UdpSession
    }

    constructor ()
      ensures Valid() && root == Leaf
    {
      root := Leaf;
      Repr := {};
    }

    /** `hev_socks5_udp_session_find`: the session whose address bytes equal `key`, or null. */
    method Find(key: Sa6) returns (r: Session?)
      requires Ordered(root)
      ensures r != null ==> r in Sessions(root) && r.addr == key
      ensures r == null <==> key !in Keys(root)
    {
      var node := root;
      while node.Node?
        invariant Sessions(node) <= Sessions(root)
        invariant Ordered(node)
        invariant key in Keys(root) <==> key in Keys(node)
        decreases node
      {
        var c := Memcmp(node.s.addr, key);
        if c < 0 {
          node := node.left;
        } else if c > 0 {
          node := node.right;
        } else {
          return node.s;
        }
      }
      return null;
    }

    /**
     * `hev_socks5_udp_session_add`: walks down from the root, remembering
     * the path, and links `s` as a new leaf where the walk ends.
     */
    method Add(s: Session)
      requires Ordered(root) && s.addr !in Keys(root)
      modifies this
      ensures root == Inserted(old(root), s)
      ensures Ordered(root) && Keys(root) == old(Keys(root)) + {s.addr}
      ensures Sessions(root) == old(Sessions(root)) + {s} && Size(root) == old(Size(root)) + 1
      ensures Repr == Sessions(root)
    {
      var path: seq<Ctx> := [];
      var node := root;
      while node.Node?
        invariant s.addr !in Keys(node)
        invariant Plug(path, Inserted(node, s)) == Inserted(old(root), s)
        decreases node
      {
        var c := Memcmp(node.s.addr, s.addr);
        PlugSnoc(path, if c < 0 then WentLeft(node.s, node.right) else WentRight(node.left, node.s),
                 if c < 0 then Inserted(node.left, s) else Inserted(node.right, s));
        if c < 0 {
          path := path + [WentLeft(node.s, node.right)];
          node := node.left;
        } else if c > 0 {
          path := path + [WentRight(node.left, node.s)];
          node := node.right;
        } else {
          assert false;
        }
      }
      root := Plug(path, Node(Leaf, s, Leaf));
      Repr := Sessions(root);
    }

    /** `hev_socks5_udp_session_del`: the session's key leaves the table. */
    method Del(s: Session)
      requires Ordered(root)
      modifies this
      ensures root == Removed(old(root), s.addr)
      ensures Ordered(root) && Keys(root) == old(Keys(root)) - {s.addr}
      ensures Sessions(root) <= old(Sessions(root))
      ensures forall x :: x in old(Sessions(root)) ==> (x in Sessions(root) <==> x.addr != s.addr)
      ensures Repr == Sessions(root)
    {
      RemovedOrdered(root, s.addr);
      root := Removed(root, s.addr);
      Repr := Sessions(root);
    }

    /**
     * What `hev_socks5_udp_session_task_entry` does once the session's run
     * has returned: the session leaves the table and is destroyed, which
     * frees every frame still queued on it.
     */
    method SessionDone(s: Session) returns (freed: seq<BufId>)
      requires Valid() && s in Repr
      modifies this
      ensures Valid()
      ensures Keys(root) == old(Keys(root)) - {s.addr} && s !in Repr
      ensures Repr == old(Repr) - {s}
      ensures freed == Payloads(s.frameList) && |freed| == s.frames
    {
      ghost var before := Repr;
      Del(s);
      forall x | x in before && x.addr == s.addr
        ensures x == s
      {
        KeysUnique(old(root), x, s);
      }
      assert Repr == before - {s};
      freed := s.Destroy();
    }

    /**
     * `hev_socks5_udp_session_new`: creates a session for `addr` and a task
     * for it; a session whose task cannot be created is destroyed again.
     * On success the session is in the table.
     */
    method UdpSessionNew(addr: Sa6, o: NewOutcome) returns (s: Session?)
      requires Valid() && addr !in Keys(root)
      modifies this
      ensures Valid()
      ensures s == null <==> !o.Succeeds()
      ensures s == null ==> root == old(root)
      ensures s != null ==> fresh(s) && s.addr == addr && s.frameList == [] && root == Inserted(old(root), s)
    {
      ghost var kept := Repr;
      s := Session.New(addr, o.mallocOk, o.baseRes, o.clientOk);
      assert Valid();
      if s == null {
        return null;
      }
      assert s !in Sessions(root) by {
        if s in Sessions(root) { SessionHasKey(root, s); }
      }
      if !o.taskOk {
        var freed := s.Destroy();
        return null;
      }
      Add(s);
      assert Repr == kept + {s};
    }

    /**
     * `hev_socks5_udp_dispatch`: finds the session for the datagram's
     * source, creating one if there is none, and queues the datagram on it.
     * `target` is the session the datagram went to.
     */
    method Dispatch(saddr: Sa6, daddr: Sa6, data: BufId, len: nat, poolSize: int,
                    create: NewOutcome, allocOk: bool) returns (res: int, target: Session?)
      requires Valid()
      modifies this, Repr
      ensures Valid()
      ensures res == 0 || res == -1
      ensures target == null ==> res == -1 && root == old(root)
      ensures target != null ==> target in Repr && target.addr == saddr
      ensures saddr in old(Keys(root)) ==> target != null && target in old(Repr) && root == old(root)
      ensures saddr !in old(Keys(root)) ==>
                (target == null <==> !create.Succeeds()) &&
                (target != null ==> fresh(target) && root == Inserted(old(root), target))
      ensures target != null && target in old(Repr) ==>
                (res == 0 <==> old(target.frames) <= poolSize && allocOk) &&
                target.frameList == old(target.frameList) + (if res == 0 then [Frame(daddr, data, len)] else [])
      ensures target != null && target !in old(Repr) ==>
                (res == 0 <==> 0 <= poolSize && allocOk) &&
                target.frameList == (if res == 0 then [Frame(daddr, data, len)] else [])
      ensures forall x :: x in old(Repr) && x != target ==> x.frameList == old(x.frameList)
      ensures old(Repr) <= Repr && forall x :: x in Repr && x != target ==> x in old(Repr)
      ensures forall x :: x in Repr ==>
                Payloads(x.frameList) == (if x in old(Repr) then old(Payloads(x.frameList)) else []) +
                                         (if x == target && res == 0 then [data] else [])
    {
      target := Find(saddr);
      if target == null {
        target := UdpSessionNew(saddr, create);
        if target == null {
          return -1, null;
        }
      }
      res := SendTo(target, data, len, daddr, poolSize, allocOk);
    }

    /** `hev_socks5_session_udp_send` on a session of the table: the table stays valid. */
    method SendTo(target: Session, data: BufId, len: nat, daddr: Sa6, poolSize: int, allocOk: bool)
      returns (res: int)
      requires Valid() && target in Repr
      modifies target
      ensures Valid()
      ensures res == 0 || res == -1
      ensures res == 0 <==> old(target.frames) <= poolSize && allocOk
      ensures target.frameList == old(target.frameList) + (if res == 0 then [Frame(daddr, data, len)] else [])
      ensures Payloads(target.frameList) == old(Payloads(target.frameList)) + (if res == 0 then [data] else [])
    {
      res := target.Send(data, len, daddr, poolSize, allocOk);
      PayloadsSnoc(old(target.frameList), Frame(daddr, data, len));
    }

    /** The payload buffers queued on each session of the table. */
    ghost function Queues(): (q: map<Session, seq<BufId>>)
      reads this, Repr
    {
      map x | x in Repr :: Payloads(x.frameList)
    }

    /** Each queued buffer `queued[i]` is still in the queue of its session `owners[i]`. */
    ghost predicate Owns(queued: seq<BufId>, owners: seq<Session>)
      reads this, Repr
    {
      OwnsIn(Queues(), queued, owners)
    }

    /** No session of the table holds buffer `b` in its queue. */
    ghost predicate NotQueued(b: BufId)
      reads this, Repr
    {
      NotQueuedIn(Queues(), b)
    }

    /** Every buffer queued in the table was allocated before allocation number `n`. */
    ghost predicate AllBelow(n: int)
      reads this, Repr
    {
      AllBelowIn(Queues(), n)
    }

    /**
     * A datagram the loop of `hev_socks5_udp_task_entry` received with a
     * positive result into the freshly allocated buffer `buf`: its original
     * destination is normalised and it is dispatched.  A refused buffer is
     * in no queue; an accepted one is in the queue of the session for the
     * datagram's source.  Buffers queued earlier stay queued, and buffers
     * freed earlier stay out of every queue.
     */
    method Handle(ev: RecvEvent, buf: BufId, poolSize: int, ghost queued: seq<BufId>, ghost owners: seq<Session>,
                  ghost freed: seq<BufId>)
      returns (res: int, target: Session?)
      requires Valid() && Owns(queued, owners) && ev.res > 0
      requires AllBelow(buf) && buf !in freed && forall b :: b in freed ==> NotQueued(b)
      modifies this, Repr
      ensures Valid()
      ensures res == 0 || res == -1
      ensures res < 0 ==> Owns(queued, owners) && NotQueued(buf)
      ensures res >= 0 ==> target != null && target.addr == ev.saddr && Owns(queued + [buf], owners + [target])
      ensures AllBelow(buf + 1) && forall b :: b in freed ==> NotQueued(b)
      ensures fresh(Repr - old(Repr))
    {
      var daddr := RecvOrigDst(ev.orig, ZeroSa6);
      ghost var q0 := Queues();
      res, target := Dispatch(ev.saddr, daddr, buf, ev.res, poolSize, ev.create, ev.allocOk);
      QueuesAfterDispatch(q0, Queues(), target, buf, res == 0, queued, owners, freed);
    }

    /**
     * The receive loop's account after `turns` turns: the buffer of each
     * turn was freed or queued, never both; no freed buffer is in any queue;
     * each queued buffer is in the queue of the session for its datagram's
     * source; and every queued buffer is older than the next allocation.
     */
    ghost predicate Accounted(events: seq<RecvEvent>, firstBuf: nat, turns: nat,
                              freed: seq<BufId>, queued: seq<BufId>, owners: seq<Session>)
      reads this, Repr
    {
      && turns <= |events|
      && Ledger(firstBuf, turns, freed, queued)
      && (forall b :: b in freed ==> NotQueued(b))
      && Owns(queued, owners)
      && Addressed(queued, owners, events, firstBuf, turns)
      && AllBelow(firstBuf + turns)
    }

    /**
     * One turn of the loop of `hev_socks5_udp_task_entry`: allocate buffer
     * `firstBuf + turns`, receive into it, and free it unless a session
     * queued it.
     */
    method RecvTurn(events: seq<RecvEvent>, poolSize: int, firstBuf: BufId, turns: nat,
                    freed: seq<BufId>, queued: seq<BufId>, owners: seq<Session>)
      returns (step: LoopStep, freed': seq<BufId>, queued': seq<BufId>, owners': seq<Session>)
      requires Valid() && turns < |events| && Accounted(events, firstBuf, turns, freed, queued, owners)
      modifies this, Repr
      ensures Valid() && Accounted(events, firstBuf, turns + 1, freed', queued', owners')
      ensures step == Classify(events[turns].res)
      ensures step != Deliver ==> freed' == freed + [firstBuf + turns] && queued' == queued
      ensures freed <= freed'
      ensures fresh(Repr - old(Repr))
    {
      var ev := events[turns];
      var buf: BufId := firstBuf + turns;
      step := Classify(ev.res);
      if step != Deliver {
        LedgerFree(firstBuf, turns, freed, queued);
        AddressedMore(queued, owners, events, firstBuf, turns);
        return step, freed + [buf], queued, owners;
      }
      var res, target := Handle(ev, buf, poolSize, queued, owners, freed);
      if res < 0 {
        LedgerFree(firstBuf, turns, freed, queued);
        AddressedMore(queued, owners, events, firstBuf, turns);
        freed', queued', owners' := freed + [buf], queued, owners;
      } else {
        LedgerQueue(firstBuf, turns, freed, queued);
        AddressedSnoc(queued, owners, events, firstBuf, turns, target);
        freed', queued', owners' := freed, queued + [buf], owners + [target];
      }
    }

    /**
     * The loop of `hev_socks5_udp_task_entry`: each turn allocates a fresh
     * buffer, receives into it, and either frees it or hands it to a
     * session's queue.  The buffer of turn `t` is allocation `firstBuf + t`,
     * fresh because every buffer queued in the table is older.  The loop
     * runs until a result other than -1 ends it, or the supplied events run
     * out.
     */
    method RecvLoop(events: seq<RecvEvent>, poolSize: int, firstBuf: BufId)
      returns (turns: nat, freed: seq<BufId>, queued: seq<BufId>, owners: seq<Session>)
      requires Valid() && AllBelow(firstBuf)
      modifies this, Repr
      ensures Valid()
      ensures turns <= |events|
      ensures turns == |events| || (turns > 0 && Classify(events[turns - 1].res) == Stop)
      ensures forall i :: 0 <= i < turns - 1 ==> Classify(events[i].res) != Stop
      ensures Accounted(events, firstBuf, turns, freed, queued, owners)
      ensures forall i :: 0 <= i < turns && Classify(events[i].res) != Deliver ==> firstBuf + i in freed
    {
      turns, freed, queued, owners := 0, [], [], [];
      while turns < |events|
        invariant Valid()
        invariant Accounted(events, firstBuf, turns, freed, queued, owners)
        invariant forall i :: 0 <= i < turns ==> Classify(events[i].res) != Stop
        invariant forall i :: 0 <= i < turns && Classify(events[i].res) != Deliver ==> firstBuf + i in freed
        invariant fresh(Repr - old(Repr))
      {
        var step;
        step, freed, queued, owners := RecvTurn(events, poolSize, firstBuf, turns, freed, queued, owners);
        turns := turns + 1;
        if step == Stop {
          break;
        }
      }
    }
  }
}
