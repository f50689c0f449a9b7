/**
 * The UDP session table `udp_set` as a binary search tree keyed by the raw
 * bytes of each session's client address and ordered by memcmp.  The
 * ordering is mirrored: a key greater than a node's address lies in its
 * LEFT subtree.  Red-black recolouring is not modelled, so the tree is an
 * unbalanced search tree.
 */
module SessionTree {
  import opened Addr
  import opened SessionUdp

  datatype Tree = Leaf | Node(left: Tree, s: Session, right: Tree)

  function Keys(t: Tree): set<Sa6>
  {
    match t
    case Leaf => {}
    case Node(l, s, r) => Keys(l) + {s.addr} + Keys(r)
  }

  function Sessions(t: Tree): set<Session>
  {
    match t
    case Leaf => {}
    case Node(l, s, r) => Sessions(l) + {s} + Sessions(r)
  }

  function Size(t: Tree): nat
  {
    match t
    case Leaf => 0
    case Node(l, _, r) => Size(l) + 1 + Size(r)
  }

  /** Search-tree order as find and add use it: node < key goes left, node > key goes right. */
  predicate Ordered(t: Tree)
  {
    match t
    case Leaf => true
    case Node(l, s, r) =>
      && Ordered(l) && Ordered(r)
      && (forall k :: k in Keys(l) ==> Memcmp(s.addr, k) < 0)
      && (forall k :: k in Keys(r) ==> Memcmp(s.addr, k) > 0)
  }

  /** Every session stored in the tree has its address among the keys. */
  lemma {:induction false} SessionHasKey(t: Tree, x: Session)
    requires x in Sessions(t)
    ensures x.addr in Keys(t)
  {
    match t
    case Node(l, s, r) =>
      if x in Sessions(l) { SessionHasKey(l, x); }
      else if x in Sessions(r) { SessionHasKey(r, x); }
  }

  /** A key the tree does not hold is no stored session's address. */
  lemma NoSessionHasKey(t: Tree, k: Sa6)
    requires k !in Keys(t)
    ensures forall y :: y in Sessions(t) ==> y.addr != k
  {
    forall y | y in Sessions(t)
      ensures y.addr != k
    {
      SessionHasKey(t, y);
    }
  }

  /** In an ordered tree no two sessions share an address. */
  lemma {:induction false} KeysUnique(t: Tree, x: Session, y: Session)
    requires Ordered(t) && x in Sessions(t) && y in Sessions(t) && x.addr == y.addr
    ensures x == y
  {
    match t
    case Node(l, s, r) =>
      if x in Sessions(l) { SessionHasKey(l, x); }
      if x in Sessions(r) { SessionHasKey(r, x); }
      if y in Sessions(l) { SessionHasKey(l, y); }
      if y in Sessions(r) { SessionHasKey(r, y); }
      if x in Sessions(l) && y in Sessions(l) { KeysUnique(l, x, y); }
      else if x in Sessions(r) && y in Sessions(r) { KeysUnique(r, x, y); }
  }

  /**
   * The tree after `hev_socks5_udp_session_add` has linked `s` where the
   * walk from the root ends.  The walk would never end on an equal key, so
   * the key must be absent.
   */
  function Inserted(t: Tree, s: Session): (r: Tree)
    requires s.addr !in Keys(t)
    ensures Keys(r) == Keys(t) + {s.addr}
    ensures Sessions(r) == Sessions(t) + {s}
    ensures Size(r) == Size(t) + 1
    ensures Ordered(t) ==> Ordered(r)
  {
    match t
    case Leaf => Node(Leaf, s, Leaf)
    case Node(l, x, rt) =>
      var c := Memcmp(x.addr, s.addr);
      if c < 0 then
        Node(Inserted(l, s), x, rt)
      else if c > 0 then
        Node(l, x, Inserted(rt, s))
      else
        assert false; t
  }

  /** Every key of `a` is greater than every key of `b`. */
  predicate Above(a: Tree, b: Tree)
  {
    forall ka, kb :: ka in Keys(a) && kb in Keys(b) ==> Memcmp(ka, kb) > 0
  }

  /** Joins the two subtrees of a removed node: `a` holds the greater keys. */
  function Merge(a: Tree, b: Tree): (r: Tree)
    requires Ordered(a) && Ordered(b) && Above(a, b)
    ensures Keys(r) == Keys(a) + Keys(b)
    ensures Sessions(r) == Sessions(a) + Sessions(b)
    ensures Ordered(r)
    decreases a
  {
    match a
    case Leaf => b
    case Node(l, x, rt) =>
      assert x.addr in Keys(a);
      Node(l, x, Merge(rt, b))
  }

  /** The nodes on the two sides of `x` are a greater and a smaller set. */
  lemma SidesOrdered(l: Tree, x: Session, r: Tree)
    requires Ordered(Node(l, x, r))
    ensures Above(l, r)
  {
    forall kl, kr | kl in Keys(l) && kr in Keys(r)
      ensures Memcmp(kl, kr) > 0
    {
      MemcmpAntisymmetric(x.addr, kr);
      MemcmpTransitive(kr, x.addr, kl);
      MemcmpAntisymmetric(kl, kr);
    }
  }

  /** The tree after `hev_socks5_udp_session_del` has erased the node keyed `k`. */
  function Removed(t: Tree, k: Sa6): (r: Tree)
    requires Ordered(t)
    ensures Keys(r) == Keys(t) - {k}
    ensures Sessions(r) <= Sessions(t)
    ensures forall x :: x in Sessions(t) ==> (x in Sessions(r) <==> x.addr != k)
  {
    match t
    case Leaf => Leaf
    case Node(l, x, rt) =>
      var c := Memcmp(x.addr, k);
      if c < 0 then
        assert k !in Keys(rt);
        NoSessionHasKey(rt, k);
        Node(Removed(l, k), x, rt)
      else if c > 0 then
        assert k !in Keys(l);
        NoSessionHasKey(l, k);
        Node(l, x, Removed(rt, k))
      else
        SidesOrdered(l, x, rt);
        assert k !in Keys(l) && k !in Keys(rt);
        NoSessionHasKey(l, k);
        NoSessionHasKey(rt, k);
        Merge(l, rt)
  }

  /** Erasing a key keeps the tree ordered. */
  lemma {:induction false} RemovedOrdered(t: Tree, k: Sa6)
    requires Ordered(t)
    ensures Ordered(Removed(t, k))
  {
    match t
    case Leaf =>
    case Node(l, x, rt) =>
      var c := Memcmp(x.addr, k);
      if c < 0 {
        RemovedOrdered(l, k);
      } else if c > 0 {
        RemovedOrdered(rt, k);
      }
  }

  /** A step of the add walk: the node passed and the subtree not taken. */
  datatype Ctx = WentLeft(s: Session, right: Tree) | WentRight(left: Tree, s: Session)

  function Wrap(c: Ctx, t: Tree): Tree
  {
    match c
    case WentLeft(s, r) => Node(t, s, r)
    case WentRight(l, s) => Node(l, s, t)
  }

  /** Puts `t` back at the end of the walk `path` (root first). */
  function Plug(path: seq<Ctx>, t: Tree): Tree
    decreases |path|
  {
    if path == [] then t else Plug(path[..|path| - 1], Wrap(path[|path| - 1], t))
  }

  lemma PlugSnoc(path: seq<Ctx>, c: Ctx, t: Tree)
    ensures Plug(path + [c], t) == Plug(path, Wrap(c, t))
  {
    assert (path + [c])[..|path|] == path;
  }
}
