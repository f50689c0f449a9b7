/**
 * The configuration file reader.  The YAML document is given as an already
 * loaded tree of nodes; each section parser walks its mapping's key/value
 * pairs, stops at the first pair it cannot read, lets the last occurrence
 * of a key win and then validates what it found.  The program's static
 * settings are the fields of `Config`.
 */
module Config {
  import opened Wrappers

  /** A YAML node as libyaml's document model knows it. */
  datatype Node = Scalar(value: string) | Mapping(pairs: seq<Pair>) | Sequence(items: seq<Node>)

  /**
   * A node reference inside a pair: the id 0 (`Absent`), an id the
   * document does not resolve (`Dangling`), or a resolved node.
   */
  datatype Ref = Absent | Dangling | Present(node: Node)

  datatype Pair = Pair(key: Ref, value: Ref)

  /** `yaml_document_get_node`: the node a present reference resolves to, or null. */
  function NodeOf(r: Ref): Option<Node>
  {
    if r.Present? then Some(r.node) else None
  }

  /** The text of a reference that resolves to a scalar node. */
  function ScalarOf(r: Ref): Option<string>
  {
    if r.Present? && r.node.Scalar? then Some(r.node.value) else None
  }

  /** A pair a section loop reads: both references present and both scalars. */
  predicate WellFormed(p: Pair)
  {
    ScalarOf(p.key).Some? && ScalarOf(p.value).Some?
  }

  predicate IsMapping(base: Option<Node>)
  {
    base.Some? && base.value.Mapping?
  }

  /**
   * The key/value texts a section loop sees: the pairs before the first
   * one that is not well formed.
   */
  function Entries(ps: seq<Pair>): (kvs: seq<(string, string)>)
    ensures |kvs| <= |ps|
    ensures forall i :: 0 <= i < |kvs| ==>
              ScalarOf(ps[i].key) == Some(kvs[i].0) && ScalarOf(ps[i].value) == Some(kvs[i].1)
    ensures |kvs| < |ps| ==> !WellFormed(ps[|kvs|])
  {
    if ps == [] || !WellFormed(ps[0]) then []
    else [(ScalarOf(ps[0].key).value, ScalarOf(ps[0].value).value)] + Entries(ps[1..])
  }

  /** Whether `key` occurs among the entries. */
  predicate Given(kvs: seq<(string, string)>, key: string)
  {
    exists i :: 0 <= i < |kvs| && kvs[i].0 == key
  }

  /** `v` is the value of the last occurrence of `key`: the entry a last-wins loop keeps. */
  ghost predicate LastValue(kvs: seq<(string, string)>, key: string, v: string)
  {
    exists i :: 0 <= i < |kvs| && kvs[i] == (key, v) && forall j :: i < j < |kvs| ==> kvs[j].0 != key
  }

  /** A key has at most one last value. */
  lemma LastValueUnique(kvs: seq<(string, string)>, key: string, v: string, w: string)
    requires LastValue(kvs, key, v) && LastValue(kvs, key, w)
    ensures v == w
  {
    var i :| 0 <= i < |kvs| && kvs[i] == (key, v) && forall j :: i < j < |kvs| ==> kvs[j].0 != key;
    var k :| 0 <= k < |kvs| && kvs[k] == (key, w) && forall j :: k < j < |kvs| ==> kvs[j].0 != key;
  }

  /** The value of the last occurrence of `key`, if any. */
  function Lookup(kvs: seq<(string, string)>, key: string): Option<string>
    decreases |kvs|
  {
    if kvs == [] then None
    else if kvs[|kvs| - 1].0 == key then Some(kvs[|kvs| - 1].1)
    else Lookup(kvs[..|kvs| - 1], key)
  }

  /** `Lookup` finds a value exactly when the key occurs, and then it is the last occurrence's. */
  lemma {:induction false} LookupLastWins(kvs: seq<(string, string)>, key: string)
    ensures Lookup(kvs, key).Some? <==> Given(kvs, key)
    ensures Lookup(kvs, key).Some? ==> LastValue(kvs, key, Lookup(kvs, key).value)
    decreases |kvs|
  {
    if kvs != [] && kvs[|kvs| - 1].0 != key {
      var init := kvs[..|kvs| - 1];
      LookupLastWins(init, key);
      assert forall i :: 0 <= i < |init| ==> init[i] == kvs[i];
      if Given(kvs, key) {
        var i :| 0 <= i < |kvs| && kvs[i].0 == key;
        assert init[i].0 == key;
      }
    }
  }

  /** Appending an entry: it is the last occurrence of its own key and changes no other. */
  lemma LookupSnoc(kvs: seq<(string, string)>, kv: (string, string), key: string)
    ensures Lookup(kvs + [kv], key) == if kv.0 == key then Some(kv.1) else Lookup(kvs, key)
  {
    assert (kvs + [kv])[..|kvs|] == kvs;
  }

  /** `strncpy` into a zeroed buffer of `n + 1` bytes: at most the first `n` characters. */
  function Truncate(s: string, n: nat): (r: string)
    ensures r <= s && |r| <= n
    ensures |r| == n || r == s
  {
    if |s| <= n then s else s[..n]
  }

  // ---------------------------------------------------------------------
  // Numeric conversion, as `strtoul`/`strtol` with base 10 on LP64 Linux.
  // ---------------------------------------------------------------------

  const ULongMax: nat := 0xFFFF_FFFF_FFFF_FFFF
  const LongMax: nat := 0x7FFF_FFFF_FFFF_FFFF
  const LongMin: int := -0x8000_0000_0000_0000

  predicate IsDigit(c: char) { '0' <= c <= '9' }

  /** The C locale's `isspace`: blank, tab, newline, vertical tab, form feed, return. */
  predicate IsSpace(c: char) { c == ' ' || '\t' <= c <= '\r' }

  function SkipSpace(s: string): (r: string)
    ensures |r| <= |s| && r == s[|s| - |r|..]
    ensures r != [] ==> !IsSpace(r[0])
  {
    if s != [] && IsSpace(s[0]) then SkipSpace(s[1..]) else s
  }

  /** The longest prefix of decimal digits. */
  function LeadingDigits(s: string): (d: string)
    ensures d <= s
    ensures forall i :: 0 <= i < |d| ==> IsDigit(d[i])
    ensures |d| < |s| ==> !IsDigit(s[|d|])
  {
    if s != [] && IsDigit(s[0]) then [s[0]] + LeadingDigits(s[1..]) else []
  }

  function DigitValue(c: char): nat
    requires IsDigit(c)
  {
    c as int - '0' as int
  }

  function DecimalValue(d: string): nat
    requires forall i :: 0 <= i < |d| ==> IsDigit(d[i])
  {
    if d == [] then 0 else DecimalValue(d[..|d| - 1]) * 10 + DigitValue(d[|d| - 1])
  }

  /** After leading blanks, an optional sign, then the value of the digits that follow. */
  function Magnitude(s: string): (bool, nat)
  {
    var t := SkipSpace(s);
    if t != [] && (t[0] == '-' || t[0] == '+') then (t[0] == '-', DecimalValue(LeadingDigits(t[1..])))
    else (false, DecimalValue(LeadingDigits(t)))
  }

  /** `strtoul(s, NULL, 10)`: saturates at ULONG_MAX, negates modulo 2^64 after a '-'. */
  function StrToUl(s: string): (r: nat)
    ensures r <= ULongMax
  {
    var (neg, mag) := Magnitude(s);
    if mag > ULongMax then ULongMax
    else if neg then (ULongMax + 1 - mag) % (ULongMax + 1)
    else mag
  }

  /** `strtol(s, NULL, 10)`: saturates at LONG_MIN and LONG_MAX. */
  function StrToL(s: string): (r: int)
    ensures LongMin <= r <= LongMax
  {
    var (neg, mag) := Magnitude(s);
    if neg then (if mag > LongMax + 1 then LongMin else -(mag as int))
    else if mag > LongMax then LongMax
    else mag
  }

  /** Storing a `long` or `unsigned long` into a 32-bit `int` keeps the low 32 bits. */
  function Int32Of(x: int): (r: int)
    ensures -0x8000_0000 <= r < 0x8000_0000
    ensures (x - r) % 0x1_0000_0000 == 0
    ensures -0x8000_0000 <= x < 0x8000_0000 ==> r == x
  {
    var y := x % 0x1_0000_0000;
    if y >= 0x8000_0000 then y - 0x1_0000_0000 else y
  }

  /** Storing an `unsigned long` into an `unsigned short` keeps the low 16 bits. */
  function UShortOf(x: nat): (r: nat)
    ensures r < 0x1_0000 && (x - r) % 0x1_0000 == 0
    ensures x < 0x1_0000 ==> r == x
  {
    x % 0x1_0000
  }

  function DigitChar(n: nat): (c: char)
    requires n < 10
    ensures IsDigit(c) && DigitValue(c) == n
  {
    ('0' as int + n) as char
  }

  /** The decimal spelling of `n`, without leading zeros. */
  function DecimalString(n: nat): (s: string)
    ensures s != [] && forall i :: 0 <= i < |s| ==> IsDigit(s[i])
  {
    if n < 10 then [DigitChar(n)] else DecimalString(n / 10) + [DigitChar(n % 10)]
  }

  lemma {:induction false} DecimalStringValue(n: nat)
    ensures DecimalValue(DecimalString(n)) == n
  {
    if n >= 10 {
      DecimalStringValue(n / 10);
      var s := DecimalString(n);
      assert s[..|s| - 1] == DecimalString(n / 10);
    }
  }

  lemma {:induction false} LeadingDigitsAll(s: string)
    requires forall i :: 0 <= i < |s| ==> IsDigit(s[i])
    ensures LeadingDigits(s) == s
  {
    if s != [] {
      LeadingDigitsAll(s[1..]);
    }
  }

  /** A string that starts with a digit has no blanks or sign to skip. */
  lemma DigitsHaveNoPrefix(d: string)
    requires d != [] && IsDigit(d[0])
    ensures SkipSpace(d) == d && d[0] != '-' && d[0] != '+'
  {
    assert !IsSpace(d[0]);
  }

  /** A digit string, with or without a leading '-', is read as its value and sign. */
  lemma MagnitudeOfDigits(d: string)
    requires d != [] && forall i :: 0 <= i < |d| ==> IsDigit(d[i])
    ensures Magnitude(d) == (false, DecimalValue(d))
    ensures Magnitude("-" + d) == (true, DecimalValue(d))
  {
    assert IsDigit(d[0]);
    DigitsHaveNoPrefix(d);
    LeadingDigitsAll(d);
    var t := "-" + d;
    assert t[0] == '-' && t[1..] == d;
    assert !IsSpace(t[0]);
    assert SkipSpace(t) == t;
  }

  /** `strtoul` reads back every value it can return from its decimal spelling. */
  lemma StrToUlDecimal(n: nat)
    requires n <= ULongMax
    ensures StrToUl(DecimalString(n)) == n
  {
    MagnitudeOfDigits(DecimalString(n));
    DecimalStringValue(n);
  }

  /** `strtol` reads back every `long` from its decimal spelling, sign included. */
  lemma StrToLDecimal(n: int)
    requires LongMin <= n <= LongMax
    ensures StrToL(if n < 0 then "-" + DecimalString(-n) else DecimalString(n)) == n
  {
    var m: nat := if n < 0 then -n else n;
    MagnitudeOfDigits(DecimalString(m));
    DecimalStringValue(m);
  }

  // ---------------------------------------------------------------------
  // Settings.
  // ---------------------------------------------------------------------

  datatype LogLevel = Debug | Info | Warn | Error

  /** `hev_config_parse_log_level`: three names are recognised, anything else is a warning level. */
  function ParseLogLevel(v: string): (l: LogLevel)
    ensures l == Debug <==> v == "debug"
    ensures l == Info <==> v == "info"
    ensures l == Error <==> v == "error"
    ensures l == Warn <==> v != "debug" && v != "info" && v != "error"
  {
    if v == "debug" then Debug
    else if v == "info" then Info
    else if v == "error" then Error
    else Warn
  }

  /** A name for each level that `ParseLogLevel` maps back to it. */
  function LogLevelName(l: LogLevel): (v: string)
    ensures ParseLogLevel(v) == l
  {
    match l
    case Debug => "debug"
    case Info => "info"
    case Warn => "warn"
    case Error => "error"
  }

  /** `HevConfigServer`; a null pointer is `None`. */
  datatype Server = Server(addr: Option<string>, port: nat, login: Option<string>, password: Option<string>)

  /** The `misc` settings. */
  datatype Misc = Misc(taskStackSize: int, connectTimeout: int, readWriteTimeout: int,
                       pidFile: string, logFile: string, logLevel: LogLevel, limitNofile: int)

  /** Every static setting of the configuration module. */
  datatype Settings = Settings(srv: Server, tcpAddress: string, tcpPort: string,
                               udpAddress: string, udpPort: string, misc: Misc)

  /** The values the settings have before any file is read. */
  const DefaultMisc := Misc(8192, 5000, 60000, "", "", Warn, -2)
  const Defaults := Settings(Server(None, 0, None, None), "", "", "", "", DefaultMisc)

  /** The keys `parse_misc` recognises. */
  const MiscKeys: set<string> := {"task-stack-size", "connect-timeout", "read-write-timeout",
                                  "pid-file", "log-file", "log-level", "limit-nofile"}

  /** The top-level sections `parse_doc` recognises. */
  const SectionKeys: set<string> := {"socks5", "tcp", "udp", "misc"}

  /**
   * `hev_config_parse_server` as a specification: a mapping with a port
   * and an address, and either both or neither of login and password.
   */
  function ServerSection(base: Option<Node>, srv: Server): (r: (int, Server))
    ensures r.0 == 0 || r.0 == -1
    ensures r.0 == -1 ==> r.1 == srv
    ensures !IsMapping(base) ==> r.0 == -1
    ensures IsMapping(base) ==>
              var kvs := Entries(base.value.pairs);
              && (r.0 == 0 <==> Given(kvs, "port") && Given(kvs, "address") &&
                                (Given(kvs, "login") <==> Given(kvs, "password")))
              && (r.0 == 0 ==> r.1.addr.Some? && LastValue(kvs, "address", r.1.addr.value))
              && (r.0 == 0 ==> r.1.port < 0x1_0000 &&
                                exists p :: LastValue(kvs, "port", p) && r.1.port == UShortOf(StrToUl(p)))
              && (r.0 == 0 && Given(kvs, "login") ==>
                    && r.1.login.Some? && LastValue(kvs, "login", r.1.login.value)
                    && r.1.password.Some? && LastValue(kvs, "password", r.1.password.value))
              && (r.0 == 0 && !Given(kvs, "login") ==> r.1.login == srv.login && r.1.password == srv.password)
  {
    if !IsMapping(base) then (-1, srv)
    else
      var kvs := Entries(base.value.pairs);
      var port, addr := Lookup(kvs, "port"), Lookup(kvs, "address");
      var login, password := Lookup(kvs, "login"), Lookup(kvs, "password");
      LookupLastWins(kvs, "port"); LookupLastWins(kvs, "address");
      LookupLastWins(kvs, "login"); LookupLastWins(kvs, "password");
      if port.None? || addr.None? || login.Some? != password.Some? then (-1, srv)
      else if login.Some? then (0, Server(addr, UShortOf(StrToUl(port.value)), login, password))
      else (0, srv.(addr := addr, port := UShortOf(StrToUl(port.value))))
  }

  /**
   * `hev_config_parse_addr` as a specification: a mapping with a port and
   * an address; the buffers change only on success.
   */
  function AddrSection(base: Option<Node>, addrBuf: string, portBuf: string): (r: (int, string, string))
    ensures r.0 == 0 || r.0 == -1
    ensures r.0 == -1 ==> r.1 == addrBuf && r.2 == portBuf
    ensures r.0 == 0 <==> IsMapping(base) &&
                          Given(Entries(base.value.pairs), "port") && Given(Entries(base.value.pairs), "address")
    ensures r.0 == 0 ==> |r.1| <= 255 && |r.2| <= 7
    ensures r.0 == 0 ==>
              exists a, p :: LastValue(Entries(base.value.pairs), "address", a) && r.1 == Truncate(a, 255) &&
                             LastValue(Entries(base.value.pairs), "port", p) && r.2 == Truncate(p, 7)
  {
    if !IsMapping(base) then (-1, addrBuf, portBuf)
    else
      var kvs := Entries(base.value.pairs);
      var port, addr := Lookup(kvs, "port"), Lookup(kvs, "address");
      LookupLastWins(kvs, "port"); LookupLastWins(kvs, "address");
      if port.None? || addr.None? then (-1, addrBuf, portBuf)
      else (0, Truncate(addr.value, 255), Truncate(port.value, 7))
  }

  /** One recognised `misc` entry applied to the settings; others leave them alone. */
  function ApplyMiscEntry(m: Misc, kv: (string, string)): Misc
  {
    var (key, value) := kv;
    if key == "task-stack-size" then m.(taskStackSize := Int32Of(StrToUl(value)))
    else if key == "connect-timeout" then m.(connectTimeout := Int32Of(StrToUl(value)))
    else if key == "read-write-timeout" then m.(readWriteTimeout := Int32Of(StrToUl(value)))
    else if key == "pid-file" then m.(pidFile := Truncate(value, 1023))
    else if key == "log-file" then m.(logFile := Truncate(value, 1023))
    else if key == "log-level" then m.(logLevel := ParseLogLevel(value))
    else if key == "limit-nofile" then m.(limitNofile := Int32Of(StrToL(value)))
    else m
  }

  /** The entries applied in order. */
  function ApplyMisc(m: Misc, kvs: seq<(string, string)>): Misc
    decreases |kvs|
  {
    if kvs == [] then m else ApplyMiscEntry(ApplyMisc(m, kvs[..|kvs| - 1]), kvs[|kvs| - 1])
  }

  lemma ApplyMiscSnoc(m: Misc, kvs: seq<(string, string)>, kv: (string, string))
    ensures ApplyMisc(m, kvs + [kv]) == ApplyMiscEntry(ApplyMisc(m, kvs), kv)
  {
    assert (kvs + [kv])[..|kvs|] == kvs;
  }

  lemma UnknownMiscEntry(m: Misc, kv: (string, string))
    requires kv.0 !in MiscKeys
    ensures ApplyMiscEntry(m, kv) == m
  {
  }

  /** The reference reading of `misc`: each field from its key's last occurrence, or kept. */
  function MiscByLookup(m: Misc, kvs: seq<(string, string)>): Misc
  {
    Misc(
      match Lookup(kvs, "task-stack-size") case None => m.taskStackSize case Some(v) => Int32Of(StrToUl(v)),
      match Lookup(kvs, "connect-timeout") case None => m.connectTimeout case Some(v) => Int32Of(StrToUl(v)),
      match Lookup(kvs, "read-write-timeout") case None => m.readWriteTimeout case Some(v) => Int32Of(StrToUl(v)),
      match Lookup(kvs, "pid-file") case None => m.pidFile case Some(v) => Truncate(v, 1023),
      match Lookup(kvs, "log-file") case None => m.logFile case Some(v) => Truncate(v, 1023),
      match Lookup(kvs, "log-level") case None => m.logLevel case Some(v) => ParseLogLevel(v),
      match Lookup(kvs, "limit-nofile") case None => m.limitNofile case Some(v) => Int32Of(StrToL(v)))
  }

  /** Applying the entries in order is the same as reading each key's last occurrence. */
  lemma {:induction false} MiscLastWins(m: Misc, kvs: seq<(string, string)>)
    ensures ApplyMisc(m, kvs) == MiscByLookup(m, kvs)
    decreases |kvs|
  {
    if kvs != [] {
      var init, last := kvs[..|kvs| - 1], kvs[|kvs| - 1];
      MiscLastWins(m, init);
      assert kvs == init + [last];
      ApplyMiscSnoc(m, init, last);
      forall key | key in MiscKeys
        ensures Lookup(kvs, key) == if last.0 == key then Some(last.1) else Lookup(init, key)
      {
        LookupSnoc(init, last, key);
      }
    }
  }

  /** A pair whose key `parse_misc` does not know changes nothing, wherever it stands. */
  lemma {:induction false} MiscIgnoresUnknown(m: Misc, a: seq<(string, string)>, kv: (string, string),
                                              b: seq<(string, string)>)
    requires kv.0 !in MiscKeys
    ensures ApplyMisc(m, a + [kv] + b) == ApplyMisc(m, a + b)
    decreases |b|
  {
    if b == [] {
      assert a + [kv] + b == a + [kv] && a + b == a;
      ApplyMiscSnoc(m, a, kv);
      UnknownMiscEntry(ApplyMisc(m, a), kv);
    } else {
      var b', last := b[..|b| - 1], b[|b| - 1];
      calc {
        ApplyMisc(m, a + [kv] + b);
        { assert a + [kv] + b == (a + [kv] + b') + [last]; }
        ApplyMisc(m, (a + [kv] + b') + [last]);
        { ApplyMiscSnoc(m, a + [kv] + b', last); }
        ApplyMiscEntry(ApplyMisc(m, a + [kv] + b'), last);
        { MiscIgnoresUnknown(m, a, kv, b'); }
        ApplyMiscEntry(ApplyMisc(m, a + b'), last);
        { ApplyMiscSnoc(m, a + b', last); }
        ApplyMisc(m, (a + b') + [last]);
        { assert a + b == (a + b') + [last]; }
        ApplyMisc(m, a + b);
      }
    }
  }

  /** `hev_config_parse_misc` as a specification: fails only on a non-mapping. */
  function MiscSection(base: Option<Node>, m: Misc): (r: (int, Misc))
    ensures r.0 == -1 <==> !IsMapping(base)
    ensures r.0 == 0 || r == (-1, m)
  {
    if !IsMapping(base) then (-1, m) else (0, ApplyMisc(m, Entries(base.value.pairs)))
  }

  /** Nothing after the first unreadable pair of a section is looked at. */
  lemma {:induction false} EntriesStopAtMalformed(ps: seq<Pair>, bad: Pair, qs: seq<Pair>)
    requires !WellFormed(bad)
    ensures Entries(ps + [bad] + qs) == Entries(ps + [bad]) == Entries(ps)
  {
    if ps != [] {
      EntriesStopAtMalformed(ps[1..], bad, qs);
      assert (ps + [bad] + qs)[1..] == ps[1..] + [bad] + qs;
      assert (ps + [bad])[1..] == ps[1..] + [bad];
    }
  }

  /** One top-level section handed to its parser; unknown sections succeed and change nothing. */
  function SectionStep(st: Settings, key: string, value: Option<Node>): (r: (int, Settings))
    ensures r.0 == 0 || r.0 == -1
    ensures key !in SectionKeys ==> r == (0, st)
  {
    if key == "socks5" then
      var (res, srv) := ServerSection(value, st.srv); (res, st.(srv := srv))
    else if key == "tcp" then
      var (res, a, p) := AddrSection(value, st.tcpAddress, st.tcpPort); (res, st.(tcpAddress := a, tcpPort := p))
    else if key == "udp" then
      var (res, a, p) := AddrSection(value, st.udpAddress, st.udpPort); (res, st.(udpAddress := a, udpPort := p))
    else if key == "misc" then
      var (res, m) := MiscSection(value, st.misc); (res, st.(misc := m))
    else (0, st)
  }

  /** A top-level pair the loop of `parse_doc` reads: both references present, a scalar key. */
  predicate DocPairReadable(p: Pair)
  {
    !p.key.Absent? && !p.value.Absent? && ScalarOf(p.key).Some?
  }

  /** The top-level loop: stops at an unreadable pair, fails at the first failing section. */
  function ApplyDoc(st: Settings, ps: seq<Pair>): (r: (int, Settings))
    ensures r.0 == 0 || r.0 == -1
    decreases |ps|
  {
    if ps == [] || !DocPairReadable(ps[0]) then (0, st)
    else
      var (res, next) := SectionStep(st, ScalarOf(ps[0].key).value, NodeOf(ps[0].value));
      if res < 0 then (-1, next) else ApplyDoc(next, ps[1..])
  }

  /** `hev_config_parse_doc` as a specification. */
  function DocSpec(root: Option<Node>, st: Settings): (int, Settings)
  {
    if !IsMapping(root) then (-1, st) else ApplyDoc(st, root.value.pairs)
  }

  /** A top-level section with an unknown name changes nothing, wherever it stands. */
  lemma {:induction false} DocIgnoresUnknown(st: Settings, a: seq<Pair>, p: Pair, b: seq<Pair>)
    requires DocPairReadable(p) && ScalarOf(p.key).value !in SectionKeys
    ensures ApplyDoc(st, a + [p] + b) == ApplyDoc(st, a + b)
    decreases |a|
  {
    if a == [] {
      assert [p] + b == a + [p] + b && (a + [p] + b)[1..] == b && a + b == b;
    } else {
      assert (a + [p] + b)[0] == a[0] && (a + b)[0] == a[0];
      assert (a + [p] + b)[1..] == a[1..] + [p] + b;
      assert (a + b)[1..] == a[1..] + b;
      if DocPairReadable(a[0]) {
        var (res, next) := SectionStep(st, ScalarOf(a[0].key).value, NodeOf(a[0].value));
        if res >= 0 {
          DocIgnoresUnknown(next, a[1..], p, b);
        }
      }
    }
  }

  /** Nothing after the first unreadable top-level pair is looked at. */
  lemma {:induction false} DocStopsAtUnreadable(st: Settings, a: seq<Pair>, bad: Pair, b: seq<Pair>)
    requires !DocPairReadable(bad)
    ensures ApplyDoc(st, a + [bad] + b) == ApplyDoc(st, a)
    decreases |a|
  {
    if a == [] {
      assert (a + [bad] + b)[0] == bad;
    } else {
      assert (a + [bad] + b)[0] == a[0];
      assert (a + [bad] + b)[1..] == a[1..] + [bad] + b;
      if DocPairReadable(a[0]) {
        var (res, next) := SectionStep(st, ScalarOf(a[0].key).value, NodeOf(a[0].value));
        if res >= 0 {
          DocStopsAtUnreadable(next, a[1..], bad, b);
        }
      }
    }
  }

  // ---------------------------------------------------------------------
  // The parsers.
  // ---------------------------------------------------------------------

  /**
   * `hev_config_parse_server`: walks the pairs, remembering the last port,
   * address, login and password, then validates them.  On failure `srv`
   * is returned unchanged.
   */
  method ParseServer(base: Option<Node>, srv: Server) returns (res: int, out: Server)
    ensures (res, out) == ServerSection(base, srv)
  {
    if base.None? || !base.value.Mapping? {
      return -1, srv;
    }
    var ps := base.value.pairs;
    ghost var kvs := Entries(ps);
    var addr: Option<string> := None;
    var port: Option<string> := None;
    var login: Option<string> := None;
    var password: Option<string> := None;
    var i := 0;
    while i < |ps|
      invariant i <= |kvs|
      invariant port == Lookup(kvs[..i], "port") && addr == Lookup(kvs[..i], "address")
      invariant login == Lookup(kvs[..i], "login") && password == Lookup(kvs[..i], "password")
    {
      if ps[i].key.Absent? || ps[i].value.Absent? {
        break;
      }
      var key := ScalarOf(ps[i].key);
      if key.None? {
        break;
      }
      var value := ScalarOf(ps[i].value);
      if value.None? {
        break;
      }
      assert kvs[..i + 1][..i] == kvs[..i];
      if key.value == "port" {
        port := value;
      } else if key.value == "address" {
        addr := value;
      } else if key.value == "login" {
        login := value;
      } else if key.value == "password" {
        password := value;
      }
      i := i + 1;
    }
    assert kvs[..i] == kvs;
    if port.None? || addr.None? || login.Some? != password.Some? {
      return -1, srv;
    }
    out := srv.(addr := addr, port := UShortOf(StrToUl(port.value)));
    if login.Some? && password.Some? {
      out := out.(login := login, password := password);
    }
    res := 0;
  }

  /**
   * `hev_config_parse_addr`: walks the pairs, remembering the last port
   * and address, and on success copies them into the buffers.
   */
  method ParseAddr(base: Option<Node>, addrBuf: string, portBuf: string)
    returns (res: int, addrOut: string, portOut: string)
    ensures (res, addrOut, portOut) == AddrSection(base, addrBuf, portBuf)
  {
    if base.None? || !base.value.Mapping? {
      return -1, addrBuf, portBuf;
    }
    var ps := base.value.pairs;
    ghost var kvs := Entries(ps);
    var addr: Option<string> := None;
    var port: Option<string> := None;
    var i := 0;
    while i < |ps|
      invariant i <= |kvs|
      invariant port == Lookup(kvs[..i], "port") && addr == Lookup(kvs[..i], "address")
    {
      if ps[i].key.Absent? || ps[i].value.Absent? {
        break;
      }
      var key := ScalarOf(ps[i].key);
      if key.None? {
        break;
      }
      var value := ScalarOf(ps[i].value);
      if value.None? {
        break;
      }
      assert kvs[..i + 1][..i] == kvs[..i];
      if key.value == "port" {
        port := value;
      } else if key.value == "address" {
        addr := value;
      }
      i := i + 1;
    }
    assert kvs[..i] == kvs;
    if port.None? || addr.None? {
      return -1, addrBuf, portBuf;
    }
    return 0, Truncate(addr.value, 255), Truncate(port.value, 7);
  }

  /** The configuration module's static settings. */
  class Config {
    var srv: Server
    var tcpAddress: string
    var tcpPort: string
    var udpAddress: string
    var udpPort: string
    var taskStackSize: int
    var connectTimeout: int
    var readWriteTimeout: int
    var pidFile: string
    var logFile: string
    var logLevel: LogLevel
    var limitNofile: int

    function MiscOf(): Misc
      reads this
    {
      Misc(taskStackSize, connectTimeout, readWriteTimeout, pidFile, logFile, logLevel, limitNofile)
    }

    function Snapshot(): Settings
      reads this
    {
      Settings(srv, tcpAddress, tcpPort, udpAddress, udpPort, MiscOf())
    }

    /** The static initialisers. */
    constructor ()
      ensures Snapshot() == Defaults
    {
      srv := Server(None, 0, None, None);
      tcpAddress, tcpPort, udpAddress, udpPort := "", "", "", "";
      taskStackSize, connectTimeout, readWriteTimeout := 8192, 5000, 60000;
      pidFile, logFile := "", "";
      logLevel := Warn;
      limitNofile := -2;
    }

    /** One pair of the `misc` section: a known key's value is converted and stored. */
    method StoreMisc(key: string, value: string)
      modifies this
      ensures MiscOf() == ApplyMiscEntry(old(MiscOf()), (key, value))
      ensures Snapshot() == old(Snapshot()).(misc := MiscOf())
    {
      if key == "task-stack-size" {
        taskStackSize := Int32Of(StrToUl(value));
      } else if key == "connect-timeout" {
        connectTimeout := Int32Of(StrToUl(value));
      } else if key == "read-write-timeout" {
        readWriteTimeout := Int32Of(StrToUl(value));
      } else if key == "pid-file" {
        pidFile := Truncate(value, 1023);
      } else if key == "log-file" {
        logFile := Truncate(value, 1023);
      } else if key == "log-level" {
        logLevel := ParseLogLevel(value);
      } else if key == "limit-nofile" {
        limitNofile := Int32Of(StrToL(value));
      }
    }

    /**
     * `hev_config_parse_misc`: each readable pair with a known key is
     * stored as soon as it is read.
     */
    method ParseMisc(base: Option<Node>) returns (res: int)
      modifies this
      ensures (res, MiscOf()) == MiscSection(base, old(MiscOf()))
      ensures Snapshot() == old(Snapshot()).(misc := MiscOf())
    {
      if base.None? || !base.value.Mapping? {
        return -1;
      }
      var ps := base.value.pairs;
      ghost var kvs := Entries(ps);
      ghost var m0, s0 := MiscOf(), Snapshot();
      var i := 0;
      while i < |ps|
        invariant i <= |kvs|
        invariant MiscOf() == ApplyMisc(m0, kvs[..i])
        invariant Snapshot() == s0.(misc := MiscOf())
      {
        if ps[i].key.Absent? || ps[i].value.Absent? {
          break;
        }
        var key := ScalarOf(ps[i].key);
        if key.None? {
          break;
        }
        var value := ScalarOf(ps[i].value);
        if value.None? {
          break;
        }
        ghost var kv := (key.value, value.value);
        assert kvs[..i + 1] == kvs[..i] + [kv];
        ApplyMiscSnoc(m0, kvs[..i], kv);
        StoreMisc(key.value, value.value);
        i := i + 1;
      }
      assert kvs[..i] == kvs;
      res := 0;
    }

    /** One top-level section handed to the parser for its name; other names are skipped. */
    method ParseSection(key: string, node: Option<Node>) returns (r: int)
      modifies this
      ensures (r, Snapshot()) == SectionStep(old(Snapshot()), key, node)
    {
      r := 0;
      if key == "socks5" {
        var s;
        r, s := ParseServer(node, srv);
        srv := s;
      } else if key == "tcp" {
        r, tcpAddress, tcpPort := ParseAddr(node, tcpAddress, tcpPort);
      } else if key == "udp" {
        r, udpAddress, udpPort := ParseAddr(node, udpAddress, udpPort);
      } else if key == "misc" {
        r := ParseMisc(node);
      }
    }

    /**
     * `hev_config_parse_doc`: hands each readable top-level pair to the
     * parser of its section and fails at the first section that fails;
     * the sections read before it keep their effect.
     */
    method ParseDoc(root: Option<Node>) returns (res: int)
      modifies this
      ensures (res, Snapshot()) == DocSpec(root, old(Snapshot()))
    {
      if root.None? || !root.value.Mapping? {
        return -1;
      }
      var ps := root.value.pairs;
      var i := 0;
      while i < |ps|
        invariant i <= |ps|
        invariant ApplyDoc(Snapshot(), ps[i..]) == ApplyDoc(old(Snapshot()), ps)
      {
        assert ps[i..][0] == ps[i] && ps[i..][1..] == ps[i + 1..];
        if ps[i].key.Absent? || ps[i].value.Absent? {
          break;
        }
        var key := ScalarOf(ps[i].key);
        if key.None? {
          break;
        }
        var r := ParseSection(key.value, NodeOf(ps[i].value));
        if r < 0 {
          return -1;
        }
        i := i + 1;
      }
      res := 0;
    }

    /** `hev_config_get_misc_pid_file`: no pid file when the setting is empty. */
    function PidFile(): (r: Option<string>)
      reads this
      ensures r.None? <==> pidFile == []
      ensures r.Some? ==> r.value == pidFile && r.value != []
    {
      if pidFile == [] then None else Some(pidFile)
    }

    /** `hev_config_get_misc_log_file`: standard error when the setting is empty. */
    function LogFile(): (r: string)
      reads this
      ensures r != []
      ensures logFile != [] ==> r == logFile
      ensures logFile == [] ==> r == "stderr"
    {
      if logFile == [] then "stderr" else logFile
    }
  }
}
