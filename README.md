# hev-socks5-tproxy, UDP relay core and configuration reader

hev-socks5-tproxy is a transparent proxy. It accepts TCP connections and UDP
datagrams that the kernel redirected to it (TPROXY). It relays them through
an upstream SOCKS5 server. This project models three parts of it in Dafny and
proves properties of the model:

- **The per-flow UDP session** (`session_udp.dfy`, module `SessionUdp`).
  - A session keeps a bounded FIFO of frames and a pending-frame counter.
  - Forward step: hands the head frame to the SOCKS5 relay.
  - Backward step: peek, receive from the relay, look up the
    transparent-socket cache, `sendto`.
  - The splice loop drives both steps, then yields, waits for I/O or exits.
  - Construction, destruction and the vtable finalizer dispatch are modelled
    too.
  - `Session` is a class. Its fields `frameList` (head first) and `frames`
    are updated in place by `Send`, `FwdF` and `Splice`.
- **Addresses and the UDP session table** (`addr.dfy`, `tree.dfy`,
  `tproxy.dfy`).
  - Socket addresses are raw bytes. A `sockaddr_in6` is 28 bytes.
  - Two addresses are normalised to IPv4-mapped IPv6 addresses, as in
    section 2.5.5.2 of RFC 4291: a resolved IPv4 bind address, and the IPv4
    original destination of a received datagram, which becomes the
    destination of its frame. The source address that keys the session
    table is the one the kernel wrote into `msg_name`, used as it is.
  - Session keys are compared with `memcmp`, modelled as the sign of a
    lexicographic byte comparison.
  - The table `udp_set` is a binary search tree with the mirrored order of
    the source: when the node's key is smaller than the sought key, the walk
    goes LEFT.
  - `Table` holds the tree and implements find, add (a walk down that keeps
    its path), del, find-or-create dispatch, session end and the receive
    loop's buffer ownership.
- **The configuration reader** (`config.dfy`, module `Config`).
  - The loaded YAML document is a datatype of nodes. A pair's reference can
    be absent, dangling, or resolved.
  - Each section parser walks its pairs, stops at the first unreadable pair,
    lets the last occurrence of a key win, then validates.
  - `Config` is a class whose fields are the program's static settings,
    with their initial values. Methods `ParseMisc` and `ParseDoc` update it.
  - The log-level mapping and the getters with defaults are functions.

Calls the model cannot see are replaced by the outcomes they returned,
supplied as parameters:

- the SOCKS5 library's `sendto`/`recvfrom`;
- the kernel's `recv` peek, `sendto` and `recvmsg`;
- `hev_tsocks_cache_get`, whose descriptor is a per-turn outcome like the others;
- allocation results;
- the yielder's result.

The infinite `for (;;)` loops of the splice and of the receive task run over
a finite sequence of supplied per-turn outcomes. They end either as the
source does or when the outcomes run out.

Three behaviours of the code worth noting:

- The forward step returns the relay's send result itself when it is
  positive (`src/hev-socks5-session-udp.c:60-71`).
- The capacity check `frames > UDP_POOL_SIZE` admits `UDP_POOL_SIZE + 1`
  frames. The first refused datagram is therefore the `(UDP_POOL_SIZE + 2)`-th
  (`CapacityScenario`).
- A zero-length datagram (`recvmsg` returning 0) ends the UDP receive task,
  because the loop stops on every result `<= 0` other than -1
  (`src/hev-socks5-tproxy.c:649-651`; `Classify(0) == Stop`).

## Model

| member | source | states |
|---|---|---|
| `Addr.ToMapped` | src/hev-socks5-tproxy.c:170-179 | The IPv4-mapped form: family AF_INET6, the IPv4 port, address bytes 0-9 zero, bytes 10-11 0xff, bytes 12-15 the IPv4 address. Flow info and scope id are not written. |
| `Addr.MappedRoundTrip` | src/hev-socks5-tproxy.c:170-179 | Reading a mapped address back (`MappedV4`) returns exactly the IPv4 port and address that were written. |
| `Addr.MappedComplete` | src/hev-socks5-tproxy.c:486-491 | Every IPv4-mapped `sockaddr_in6` is the image of the IPv4 address it carries. |
| `Addr.MappedInjective` | src/hev-socks5-tproxy.c:486-491 | Two IPv4 endpoints written over the same buffer give the same bytes only if their port and address agree, so distinct IPv4 original destinations give distinct frame destinations. |
| `Addr.TproxySockaddr` | src/hev-socks5-tproxy.c:154-187 | -1 exactly when resolution failed. An IPv4 result is stored mapped, an IPv6 result is copied whole, and any other family leaves the output unchanged. |
| `Addr.RecvOrigDst` | src/hev-socks5-tproxy.c:478-504 | An IPv4 original destination becomes its mapped form. An IPv6 one is copied whole. With no such control message, `daddr` is left as it was. |
| `Addr.Memcmp` | src/hev-socks5-tproxy.c:519 | The comparison's sign is -1, 0 or 1, and it is 0 exactly when the two byte strings are equal. |
| `Addr.MemcmpAntisymmetric` | src/hev-socks5-tproxy.c:542 | Swapping the operands flips the sign. |
| `Addr.MemcmpTransitive` | src/hev-socks5-tproxy.c:542 | Less-than is transitive, so `memcmp` is a strict order on keys. |
| `SessionUdp.SendResult` | src/hev-socks5-session-udp.c:60-64 | The forward result is never 0 once a frame was sent. It is -1 exactly when the relay send returned <= 0, otherwise the send result itself. |
| `SessionUdp.FwdB` | src/hev-socks5-session-udp.c:74-127 | The result is in {-1, 0, 1}. The kernel `sendto` is attempted exactly when fd >= 0, the peek and the receive are positive and this turn's cache lookup returned a descriptor >= 0; it goes to that descriptor. It then goes to the session's client address with the received length. 0 exactly when the peek or that `sendto` would block (EAGAIN); 1 exactly when `sendto` succeeded. |
| `SessionUdp.Decide` | src/hev-socks5-session-udp.c:146-151 | Exit iff either result is negative. Wait for I/O iff both are 0. Yield otherwise. |
| `SessionUdp.Session.Alloc` | src/hev-socks5-session-udp.c:210-212 | A zero-filled session for the client address: empty queue, counter 0. Its class is recorded as the base session's, which stands for the descriptor the base constructor installs (src/hev-socks5-session.c:27) before the UDP one replaces it. |
| `SessionUdp.Session.Construct` | src/hev-socks5-session-udp.c:166-180 | -1 exactly when the base constructor failed. On success the UDP class is installed. |
| `SessionUdp.Session.New` | src/hev-socks5-session-udp.c:203-232 | No session iff any of the three allocations or constructions failed. Otherwise a fresh UDP session for the address, with an empty queue that satisfies the counter invariant. |
| `SessionUdp.Session.Send` | src/hev-socks5-session-udp.c:234-258 | Succeeds iff `frames <= poolSize` and the frame allocation succeeded. On success exactly one frame `(dest, data, len)` is appended at the tail and the task is woken once. On failure nothing changes. The counter stays equal to the queue length, and a queue of at most `poolSize + 1` frames stays that short. |
| `SessionUdp.Session.FwdF` | src/hev-socks5-session-udp.c:41-72 | On an empty queue: returns 0 and changes nothing. Otherwise the head frame is handed to the relay and removed whatever the outcome, and the result is `SendResult` of the send. The counter stays equal to the queue length. |
| `SessionUdp.Session.Destruct` | src/hev-socks5-session-udp.c:182-201 | The freed payloads are exactly those of the queued frames, in queue order, and there are `frames` of them. |
| `SessionUdp.Session.Destroy` | src/hev-socks5-session.c:41-49 | Dispatches to the class finalizer. The UDP finalizer frees every queued payload; the base one frees none. |
| `SessionUdp.Session.Turn` | src/hev-socks5-session-udp.c:141-154 | One turn calls both directions. The frame sent is the old head, and the queue loses exactly that frame. The decision follows `Decide`, and the yielder is called unless the turn exits. |
| `SessionUdp.Session.Splice` | src/hev-socks5-session-udp.c:129-156 | Every turn calls both directions with the supplied outcomes. The loop goes on after every turn but the last, and stops early only when a result was negative or the yielder returned < 0. Frames reach the relay in FIFO order: those forwarded are a prefix of the old queue, and the queue holds the rest. Once a turn finds the queue empty, every later turn does too. |
| `SessionUdp.ForwardOrderScenario` | src/hev-socks5-session-udp.c:52-72 | Three datagrams queued for three destinations are forwarded in the same order, even when one relay send fails, and the counter returns to 0. |
| `SessionUdp.CapacityScenario` | src/hev-socks5-session-udp.c:242-243 | With a pool size of 1, two datagrams are accepted and the third is refused. |
| `SessionTree.KeysUnique` | src/hev-socks5-tproxy.c:509-530 | In a tree ordered as find walks it, no two sessions share a client address. |
| `SessionTree.Inserted` | src/hev-socks5-tproxy.c:532-553 | Linking an absent key as a new leaf on the mirrored search path adds exactly that key and that session. It grows the size by one and keeps the tree ordered. |
| `SessionTree.Merge` | src/hev-socks5-tproxy.c:555-559 | Joining the two subtrees of an erased node keeps every key and session of both, and keeps the order. |
| `SessionTree.Removed` | src/hev-socks5-tproxy.c:555-559 | Erasing a key leaves every other key. A stored session stays exactly when its address differs from the key, and no session is added. |
| `SessionTree.RemovedOrdered` | src/hev-socks5-tproxy.c:555-559 | Erasing a key keeps the tree ordered. |
| `Tproxy.TaskIoYielder` | src/hev-socks5-tproxy.c:325-331 | -1 iff `quit` is set, otherwise 0. |
| `Tproxy.Classify` | src/hev-socks5-tproxy.c:645-652 | Result -1 retries, any other result <= 0 stops (a zero-length datagram included), a positive one is handled. |
| `Tproxy.Table.constructor` | src/hev-socks5-tproxy.c:47 | The table starts empty and valid. |
| `Tproxy.Table.Find` | src/hev-socks5-tproxy.c:509-530 | Returns a session of the table whose address equals the key, or null iff no session has that address. |
| `Tproxy.Table.Add` | src/hev-socks5-tproxy.c:532-553 | For an absent key, the walk that records its path ends in the tree `Inserted` describes: ordered, one key and one session more. |
| `Tproxy.Table.Del` | src/hev-socks5-tproxy.c:555-559 | The tree becomes `Removed(old root, addr)`: still ordered, without that key, other sessions kept. |
| `Tproxy.Table.SessionDone` | src/hev-socks5-tproxy.c:561-570 | When a session's run ends, it leaves the table. The other sessions stay, the table stays valid, and destroying it frees exactly its queued payloads. |
| `Tproxy.Table.UdpSessionNew` | src/hev-socks5-tproxy.c:572-597 | A session is returned iff all four allocation steps succeed, and it is then inserted for its address with an empty queue. On failure the table is unchanged, and a session whose task could not be created is destroyed again. |
| `Tproxy.Table.Dispatch` | src/hev-socks5-tproxy.c:599-616 | A known source sends to its existing session and leaves the tree unchanged. An unknown source first creates and inserts a session keyed by it; if creation fails, -1 and nothing is inserted. The datagram is queued exactly when the session's send accepts it, and no other session's queue changes. |
| `Tproxy.Table.SendTo` | src/hev-socks5-tproxy.c:613 | Sending on a session of the table keeps the table valid. It appends the frame exactly when the capacity and allocation checks pass. |
| `Tproxy.QueuesAfterDispatch` | src/hev-socks5-tproxy.c:654-656 | When a dispatch appends the new buffer to one session's queue or appends nothing: buffers queued earlier stay in their owners' queues, and freed buffers stay out of every queue. The new buffer is then queued exactly on that session, or on none. |
| `Tproxy.Table.Handle` | src/hev-socks5-tproxy.c:654-656 | A dispatched buffer refused by its session is in no queue, so freeing it is safe. An accepted one is in the queue of the session whose address is the datagram's source. Buffers queued earlier stay in their owners' queues, and buffers freed earlier stay out of every queue. |
| `Tproxy.Table.RecvTurn` | src/hev-socks5-tproxy.c:633-656 | One turn allocates a buffer newer than every queued one. A result that is not positive frees it. The loop's account (`Accounted`) carries over to the next turn. |
| `Tproxy.Table.RecvLoop` | src/hev-socks5-tproxy.c:632-657 | The loop's account holds (`Accounted`). Each turn's buffer is either freed or queued, never both. No freed buffer is in any session's queue, so nothing is freed twice or freed while queued. Each queued buffer is in the queue of the session for its datagram's source. A result that is not positive frees the buffer. The loop stops at the first result <= 0 other than -1. |
| `Config.Entries` | src/hev-config.c:47-63 | The key/value texts a section loop reads are those of the pairs before the first pair whose key or value is missing or not a scalar. |
| `Config.LookupLastWins` | src/hev-config.c:65-72 | A key's remembered value exists iff the key occurs, and is then the value of its last occurrence. |
| `Config.LastValueUnique` | src/hev-config.c:65-72 | A key has one last value, so "the last occurrence's value" determines what is stored. |
| `Config.EntriesStopAtMalformed` | src/hev-config.c:52-63 | Pairs after an unreadable pair are never looked at. |
| `Config.Truncate` | src/hev-config.c:145-146 | `strncpy` into a zeroed buffer keeps a prefix of at most the given length, and the whole text when it fits. |
| `Config.StrToUl` | src/hev-config.c:91 | `strtoul` with base 10 never exceeds ULONG_MAX. |
| `Config.StrToUlDecimal` | src/hev-config.c:190 | `strtoul` reads back every `unsigned long` from its decimal spelling. |
| `Config.StrToL` | src/hev-config.c:202 | `strtol` with base 10 stays within LONG_MIN..LONG_MAX. |
| `Config.StrToLDecimal` | src/hev-config.c:202 | `strtol` reads back every `long` from its decimal spelling, sign included. |
| `Config.Int32Of` | src/hev-config.c:190 | Storing into an `int` keeps the value modulo 2^32 within the 32-bit range, and is the identity on values that fit. |
| `Config.UShortOf` | src/hev-config.c:91 | Storing into the `unsigned short` port keeps the value modulo 2^16, and is the identity on values that fit. |
| `Config.ParseLogLevel` | src/hev-config.c:150-161 | "debug", "info" and "error" map to their levels, and every other string maps to the warning level. |
| `Config.LogLevelName` | src/hev-config.c:150-161 | Every level has a name that the parser maps back to it. |
| `Config.ServerSection` | src/hev-config.c:34-98 | Succeeds iff the node is a mapping whose readable pairs give a port, an address, and both or neither of login and password. On success the stored address is the last `address` value. The stored port is the last `port` value converted by `strtoul` and kept modulo 2^16. When login and password are given, the last values of both are stored; otherwise the earlier credentials stay. On failure nothing changes. |
| `Config.ParseServer` | src/hev-config.c:34-98 | The loop over pairs computes exactly `ServerSection`. |
| `Config.AddrSection` | src/hev-config.c:100-148 | Succeeds iff the node is a mapping whose readable pairs give a port and an address. The buffers then hold the last `address` value truncated to 255 characters and the last `port` value truncated to 7. On failure they are unchanged. |
| `Config.ParseAddr` | src/hev-config.c:100-148 | The loop over pairs computes exactly `AddrSection`. |
| `Config.MiscLastWins` | src/hev-config.c:189-202 | Storing the misc pairs one by one gives, for each setting, the value converted from its key's last occurrence. A setting whose key is absent keeps its earlier value. |
| `Config.MiscIgnoresUnknown` | src/hev-config.c:189-202 | A misc pair with an unknown key changes nothing, wherever it stands. |
| `Config.MiscSection` | src/hev-config.c:163-206 | -1 iff the node is not a mapping, and then nothing changes; otherwise 0. |
| `Config.SectionStep` | src/hev-config.c:234-241 | A top-level key other than socks5, tcp, udp and misc succeeds and changes nothing. |
| `Config.ApplyDoc` | src/hev-config.c:218-245 | The top-level walk returns 0 or -1. |
| `Config.DocIgnoresUnknown` | src/hev-config.c:234-244 | A top-level section with an unknown name changes nothing, wherever it stands. |
| `Config.DocStopsAtUnreadable` | src/hev-config.c:224-229 | Top-level pairs after the first unreadable one are never looked at. |
| `Config.Config.constructor` | src/hev-config.c:16-32 | Initial settings: no server, empty addresses and ports, task stack 8192, connect timeout 5000, read/write timeout 60000, no pid or log file, warning level, nofile limit -2. |
| `Config.Config.StoreMisc` | src/hev-config.c:189-202 | One misc pair updates only the setting its key names, and nothing outside the misc settings. |
| `Config.Config.ParseMisc` | src/hev-config.c:163-206 | The loop stores exactly what `MiscSection` describes and changes nothing outside the misc settings. |
| `Config.Config.ParseSection` | src/hev-config.c:234-241 | A top-level section is handed to the parser its name selects, with the effect `SectionStep` describes. |
| `Config.Config.ParseDoc` | src/hev-config.c:208-248 | -1 if the root is not a mapping. Otherwise sections are applied in order up to the first unreadable pair, and the walk returns -1 at the first failing section, whose predecessors keep their effect. |
| `Config.Config.PidFile` | src/hev-config.c:343-350 | No pid file exactly when the stored setting is empty, otherwise the setting. |
| `Config.Config.LogFile` | src/hev-config.c:352-359 | "stderr" when the stored setting is empty, otherwise the setting; never empty. |

## Left out

- Socket creation, options, binding, listening and name resolution (`src/hev-socks5-tproxy.c:189-323`, the resolver call in `hev_socks5_tproxy_sockaddr`): operating-system plumbing. The resolver's answer is a parameter.
- Control-message iteration in `hev_socks5_udp_recvmsg` (`CMSG_FIRSTHDR`/`CMSG_NXTHDR`): kernel ABI. Only the control message found, if any, is modelled.
- The task scheduler, event fd, signal handling, the init/fini/run/stop entry points, the TCP task, the TCP session list, and session termination at loop exit: runtime and concurrency. Yields, waits and wakeups are results or counters.
- Red-black rebalancing (`hev_rbtree_insert_color`, `hev_rbtree_erase`): that library is not part of this model. The table is an unbalanced search tree held as a value, so node aliasing and parent pointers are not modelled.
- The SOCKS5 client library (`hev_socks5_udp_sendto`/`recvfrom`, client creation, connect, handshake, timeouts), the transparent-socket cache and `hev_socks5_session_run`: foreign code. Their results are parameters.
- `Splice`, `RecvLoop`: each of these `for (;;)` loops runs at most as many turns as outcomes are supplied. Enqueues by other tasks between turns of a splice are not modelled.
- `Memcmp`: only the sign of `memcmp` is modelled, which is all the source uses.
- `Addr` family bytes: AF_INET and AF_INET6 are written as their little-endian Linux values (2 and 10).
- `Tproxy.Table.Add`: requires the key to be absent. The source's walk never advances on an equal key and would not terminate; its only caller calls find first (`src/hev-socks5-tproxy.c:606-607`).
- `Tproxy.Table.RecvLoop`: a failed `hev_malloc` of the receive buffer is not modelled (the source does not check it). A buffer is identified by its allocation number, `firstBuf` plus the turn. The caller states that every buffer already queued is older than `firstBuf` (`AllBelow`), as it is for fresh heap memory.
- `SessionUdp.Session.New`: the source frees a session whose relay client allocation failed without running the base destructor. The model only states that no session is returned.
- `Config.Config.PidFile`: the other getters return the stored fields unchanged and are the fields of `Config`.
- `hev_config_init` (file open, libyaml parser and document load) and the resulting YAML node ids: the document is given as a loaded node tree.
- Strings are sequences of characters without an embedded NUL. The C string stops at the first NUL, which the model does not represent.
- `Config.StrToUl`: the decimal conversion ignores locale and only reads the C locale's blanks. `errno` is not modelled.
- Log messages to standard error and through the logger: output only.
