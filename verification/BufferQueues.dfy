/**
  The two linked structures of fs/buffer.c: the free ring, a doubly linked
  cycle over the buffers that are not being re-assigned, and the hash chains.
  Buffer heads are numbered; -1 is the null pointer.
 */
module BufferQueues {

  const NR_HASH: nat := 307

  /** prev and next are the chain links, before and after the links of the free ring. */
  datatype Head = Head(dev: nat, block: nat, count: nat, prev: int, next: int, before: int, after: int)

  /** dev ^ block, bit by bit. */
  function Xor(a: nat, b: nat): nat
    decreases a + b
  {
    if a == 0 then b else if b == 0 then a else 2 * Xor(a / 2, b / 2) + (a + b) % 2
  }

  function Hash(dev: nat, block: nat): (h: nat)
    ensures h < NR_HASH
  {
    Xor(dev, block) % NR_HASH
  }

  predicate Distinct(s: seq<nat>) { forall i, j :: 0 <= i < j < |s| ==> s[i] != s[j] }

  predicate InRange(s: seq<nat>, n: nat) { forall i :: 0 <= i < |s| ==> s[i] < n }

  function Without(s: seq<nat>, k: nat): seq<nat>
    requires k < |s|
  {
    s[..k] + s[k + 1..]
  }

  /** The ring links of the k-th buffer of the ring. */
  predicate RingLinkAt(heads: seq<Head>, ring: seq<nat>, k: nat)
    requires k < |ring| && InRange(ring, |heads|)
  {
    && heads[ring[k]].after == ring[if k == |ring| - 1 then 0 else k + 1]
    && heads[ring[k]].before == ring[if k == 0 then |ring| - 1 else k - 1]
  }

  /** The links of `heads` run through `ring` and close it. */
  predicate RingOk(heads: seq<Head>, ring: seq<nat>) {
    && ring != [] && Distinct(ring) && InRange(ring, |heads|)
    && (forall k :: 0 <= k < |ring| ==> RingLinkAt(heads, ring, k))
  }

  predicate ChainLinkAt(heads: seq<Head>, chain: seq<nat>, k: nat)
    requires k < |chain| && InRange(chain, |heads|)
  {
    && heads[chain[k]].next == (if k == |chain| - 1 then -1 else chain[k + 1])
    && heads[chain[k]].prev == (if k == 0 then -1 else chain[k - 1])
  }

  /** The chain links run through `chain`, from a null pointer to a null pointer, and all of it hashes to h. */
  predicate ChainOk(heads: seq<Head>, chain: seq<nat>, h: nat) {
    && Distinct(chain) && InRange(chain, |heads|)
    && (forall k :: 0 <= k < |chain| ==> ChainLinkAt(heads, chain, k))
    && (forall k :: 0 <= k < |chain| ==> HashesTo(heads[chain[k]], h))
  }

  predicate HashesTo(x: Head, h: nat) { x.dev != 0 && Hash(x.dev, x.block) == h }

  function First(chain: seq<nat>): int { if chain == [] then -1 else chain[0] }

  /** Only ring links of buffers other than those in the chain changed. */
  predicate SameChainLinks(x: Head, y: Head) {
    y.prev == x.prev && y.next == x.next && y.dev == x.dev && y.block == x.block
  }

  predicate SameRingLinks(x: Head, y: Head) { y.before == x.before && y.after == x.after }

  function BootHead(n: nat, i: nat): Head
    requires i < n
  {
    Head(0, 0, 0, -1, -1, if i == 0 then n - 1 else i - 1, if i == n - 1 then 0 else i + 1)
  }

  function IndexOf(s: seq<nat>, b: nat): (k: nat)
    requires b in s
    ensures k < |s| && s[k] == b
  {
    if s[0] == b then 0 else 1 + IndexOf(s[1..], b)
  }

  // ----- taking a buffer out --------------------------------------------------

  function UnlinkRing(heads: seq<Head>, b: nat): (r: seq<Head>)
    requires b < |heads| && 0 <= heads[b].before < |heads| && 0 <= heads[b].after < |heads|
    ensures |r| == |heads| && forall c :: 0 <= c < |heads| ==>
              SameChainLinks(heads[c], r[c]) && r[c].count == heads[c].count
    ensures forall c :: 0 <= c < |heads| ==>
              r[c].after == if c == heads[b].before then heads[b].after else heads[c].after
    ensures forall c :: 0 <= c < |heads| ==>
              r[c].before == if c == heads[b].after then heads[b].before else heads[c].before
  {
    var x := heads[heads[b].before := heads[heads[b].before].(after := heads[b].after)];
    x[heads[b].after := x[heads[b].after].(before := heads[b].before)]
  }

  /** Position j of the shortened sequence is position Skip(j, k) of the original one. */
  function Skip(j: int, k: nat): int { if j < k then j else j + 1 }

  lemma WithoutDistinct(s: seq<nat>, k: nat, n: nat)
    requires k < |s| && Distinct(s) && InRange(s, n)
    ensures |Without(s, k)| == |s| - 1 && Distinct(Without(s, k)) && InRange(Without(s, k), n)
    ensures forall j :: 0 <= j < |s| - 1 ==> Without(s, k)[j] == s[Skip(j, k)]
  {
    assert forall j :: 0 <= j < |s| - 1 ==> Without(s, k)[j] == s[Skip(j, k)];
  }

  lemma WithoutMembers(s: seq<nat>, k: nat)
    requires k < |s| && Distinct(s)
    ensures forall b :: b in Without(s, k) <==> b in s && b != s[k]
  {
    var w := Without(s, k);
    forall b | b in s && b != s[k]
      ensures b in w
    {
      var i :| 0 <= i < |s| && s[i] == b;
      assert w[if i < k then i else i - 1] == b;
    }
  }

  lemma UnlinkRingAt(heads: seq<Head>, ring: seq<nat>, k: nat, j: nat)
    requires RingOk(heads, ring) && k < |ring| && |ring| >= 2 && j < |ring| - 1
    ensures 0 <= heads[ring[k]].before < |heads| && 0 <= heads[ring[k]].after < |heads|
    ensures var r, n := UnlinkRing(heads, ring[k]), |ring|;
            && r[ring[Skip(j, k)]].after == ring[Skip(if j == n - 2 then 0 else j + 1, k)]
            && r[ring[Skip(j, k)]].before == ring[Skip(if j == 0 then n - 2 else j - 1, k)]
  {
    assert RingLinkAt(heads, ring, k) && RingLinkAt(heads, ring, Skip(j, k));
  }

  lemma RingRemove(heads: seq<Head>, ring: seq<nat>, k: nat)
    requires RingOk(heads, ring) && k < |ring| && |ring| >= 2
    ensures 0 <= heads[ring[k]].before < |heads| && 0 <= heads[ring[k]].after < |heads|
    ensures RingOk(UnlinkRing(heads, ring[k]), Without(ring, k))
  {
    WithoutDistinct(ring, k, |heads|);
    assert RingLinkAt(heads, ring, k);
    var r := UnlinkRing(heads, ring[k]);
    forall j | 0 <= j < |ring| - 1
      ensures RingLinkAt(r, Without(ring, k), j)
    {
      UnlinkRingAt(heads, ring, k, j);
      assert Without(ring, k)[j] == ring[Skip(j, k)];
    }
  }

  function UnlinkChain(heads: seq<Head>, b: nat): (r: seq<Head>)
    requires b < |heads| && -1 <= heads[b].prev < |heads| && -1 <= heads[b].next < |heads|
    ensures |r| == |heads| && forall c :: 0 <= c < |heads| ==>
              SameRingLinks(heads[c], r[c]) && r[c].count == heads[c].count
    ensures forall c :: 0 <= c < |heads| ==> r[c].dev == heads[c].dev && r[c].block == heads[c].block
    ensures forall c :: 0 <= c < |heads| ==> r[c].next == if c == heads[b].prev then heads[b].next else heads[c].next
    ensures forall c :: 0 <= c < |heads| ==> r[c].prev == if c == heads[b].next then heads[b].prev else heads[c].prev
  {
    var x := if heads[b].next == -1 then heads
        else heads[heads[b].next := heads[heads[b].next].(prev := heads[b].prev)];
    if heads[b].prev == -1 then x else x[heads[b].prev := x[heads[b].prev].(next := heads[b].next)]
  }

  lemma UnlinkChainAt(heads: seq<Head>, chain: seq<nat>, h: nat, k: nat, j: nat)
    requires ChainOk(heads, chain, h) && k < |chain| && j < |chain| - 1
    ensures -1 <= heads[chain[k]].prev < |heads| && -1 <= heads[chain[k]].next < |heads|
    ensures var r, n := UnlinkChain(heads, chain[k]), |chain|;
            && r[chain[Skip(j, k)]].next == (if j == n - 2 then -1 else chain[Skip(j + 1, k)])
            && r[chain[Skip(j, k)]].prev == (if j == 0 then -1 else chain[Skip(j - 1, k)])
  {
    assert ChainLinkAt(heads, chain, k) && ChainLinkAt(heads, chain, Skip(j, k));
  }

  lemma ChainRemove(heads: seq<Head>, chain: seq<nat>, h: nat, k: nat)
    requires ChainOk(heads, chain, h) && k < |chain|
    ensures heads[chain[k]].next == -1 || heads[chain[k]].next in chain
    ensures heads[chain[k]].prev == -1 || heads[chain[k]].prev in chain
    ensures ChainOk(UnlinkChain(heads, chain[k]), Without(chain, k), h)
    ensures First(Without(chain, k)) == if k == 0 then heads[chain[0]].next else First(chain)
  {
    WithoutDistinct(chain, k, |heads|);
    assert ChainLinkAt(heads, chain, k);
    var r := UnlinkChain(heads, chain[k]);
    forall j | 0 <= j < |chain| - 1
      ensures ChainLinkAt(r, Without(chain, k), j)
    {
      UnlinkChainAt(heads, chain, h, k, j);
      assert Without(chain, k)[j] == chain[Skip(j, k)];
    }
  }

  /** A chain none of whose buffers lost or gained a link is still a chain. */
  lemma ChainKept(heads: seq<Head>, r: seq<Head>, chain: seq<nat>, h: nat)
    requires ChainOk(heads, chain, h) && |r| == |heads|
    requires forall k :: 0 <= k < |chain| ==> SameChainLinks(heads[chain[k]], r[chain[k]])
    ensures ChainOk(r, chain, h)
  {
    forall k | 0 <= k < |chain|
      ensures ChainLinkAt(r, chain, k)
    {
      assert ChainLinkAt(heads, chain, k);
    }
  }

  lemma RingKept(heads: seq<Head>, r: seq<Head>, ring: seq<nat>)
    requires RingOk(heads, ring) && |r| == |heads|
    requires forall k :: 0 <= k < |ring| ==> SameRingLinks(heads[ring[k]], r[ring[k]])
    ensures RingOk(r, ring)
  {
    forall k | 0 <= k < |ring|
      ensures RingLinkAt(r, ring, k)
    {
      assert RingLinkAt(heads, ring, k);
    }
  }

  // ----- all chains together --------------------------------------------------

  ghost predicate ChainsOk(heads: seq<Head>, table: seq<int>, chains: seq<seq<nat>>) {
    && |table| == NR_HASH && |chains| == NR_HASH
    && (forall h :: 0 <= h < NR_HASH ==> ChainOk(heads, chains[h], h) && table[h] == First(chains[h]))
  }

  /** Queued buffers with a device are on their chain, only queued buffers are on chains; buffer b is excepted. */
  ghost predicate Together(heads: seq<Head>, ring: seq<nat>, chains: seq<seq<nat>>, b: int)
    requires |chains| == NR_HASH && InRange(ring, |heads|)
  {
    && (forall c :: c in ring && c != b && heads[c].dev != 0 ==> c in chains[Hash(heads[c].dev, heads[c].block)])
    && (forall c :: c in ring && c != b && heads[c].dev == 0 ==> heads[c].prev == -1 && heads[c].next == -1)
    && (forall h, c :: 0 <= h < NR_HASH && c in chains[h] ==> c in ring && c != b)
  }

  /** The ring is in the order in which buffers were inserted. */
  ghost predicate Stamped(ring: seq<nat>, stamp: seq<nat>, clock: nat) {
    && InRange(ring, |stamp|)
    && (forall i, j :: 0 <= i < j < |ring| ==> stamp[ring[i]] < stamp[ring[j]])
    && (forall i :: 0 <= i < |ring| ==> stamp[ring[i]] < clock)
  }

  /** A buffer without a device is on no chain and heads no bucket. */
  lemma NotHashed(heads: seq<Head>, table: seq<int>, chains: seq<seq<nat>>, b: nat)
    requires ChainsOk(heads, table, chains) && b < |heads| && heads[b].dev == 0
    ensures forall g :: 0 <= g < NR_HASH ==> b !in chains[g] && table[g] != b
  {
    forall g | 0 <= g < NR_HASH
      ensures b !in chains[g] && table[g] != b
    {
      assert ChainOk(heads, chains[g], g);
    }
  }

  /** Unlinking b leaves the other chains alone: buffers of different buckets have different hashes. */
  lemma OtherChainKept(heads: seq<Head>, chains: seq<seq<nat>>, h: nat, g: nat, k: nat)
    requires |chains| == NR_HASH && h < NR_HASH && g < NR_HASH && g != h && k < |chains[h]|
    requires ChainOk(heads, chains[h], h) && ChainOk(heads, chains[g], g)
    ensures -1 <= heads[chains[h][k]].prev < |heads| && -1 <= heads[chains[h][k]].next < |heads|
    ensures ChainOk(UnlinkChain(heads, chains[h][k]), chains[g], g) && chains[h][k] !in chains[g]
  {
    assert ChainLinkAt(heads, chains[h], k);
    var r := UnlinkChain(heads, chains[h][k]);
    forall j | 0 <= j < |chains[g]|
      ensures SameChainLinks(heads[chains[g][j]], r[chains[g][j]]) && chains[g][j] != chains[h][k]
    {
      assert HashesTo(heads[chains[g][j]], g);
    }
    ChainKept(heads, r, chains[g], g);
  }

  lemma UnhashChains(heads: seq<Head>, table: seq<int>, chains: seq<seq<nat>>, h: nat, k: nat)
    requires ChainsOk(heads, table, chains) && h < NR_HASH && k < |chains[h]|
    ensures var b := chains[h][k];
            && -1 <= heads[b].prev < |heads| && -1 <= heads[b].next < |heads|
            && heads[b].prev != b && heads[b].next != b
            && ChainsOk(UnlinkChain(heads, b), if table[h] == b then table[h := heads[b].next] else table,
                        chains[h := Without(chains[h], k)])
            && (forall g :: 0 <= g < NR_HASH && g != h ==> b !in chains[g])
  {
    var chain := chains[h];
    assert ChainOk(heads, chain, h) && ChainLinkAt(heads, chain, k);
    ChainRemove(heads, chain, h, k);
    forall g | 0 <= g < NR_HASH && g != h
      ensures ChainOk(UnlinkChain(heads, chain[k]), chains[g], g) && chain[k] !in chains[g]
    {
      assert ChainOk(heads, chains[g], g);
      OtherChainKept(heads, chains, h, g, k);
    }
  }

  lemma UnhashRing(heads: seq<Head>, ring: seq<nat>, b: nat)
    requires RingOk(heads, ring) && b < |heads| && -1 <= heads[b].prev < |heads| && -1 <= heads[b].next < |heads|
    ensures RingOk(UnlinkChain(heads, b), ring)
  {
    RingKept(heads, UnlinkChain(heads, b), ring);
  }

  /** Every buffer but the k-th of chain h is on the same chains as before. */
  lemma OtherMembers(chains: seq<seq<nat>>, h: nat, k: nat, g: nat, c: nat)
    requires |chains| == NR_HASH && h < NR_HASH && k < |chains[h]| && Distinct(chains[h]) && g < NR_HASH
    requires g != h ==> chains[h][k] !in chains[g]
    ensures c in chains[h := Without(chains[h], k)][g] <==> c in chains[g] && c != chains[h][k]
  {
    WithoutMembers(chains[h], k);
  }

  lemma UnhashTogether(heads: seq<Head>, table: seq<int>, ring: seq<nat>, chains: seq<seq<nat>>, h: nat, k: nat)
    requires ChainsOk(heads, table, chains) && InRange(ring, |heads|) && Together(heads, ring, chains, -1)
    requires h < NR_HASH && k < |chains[h]|
    ensures var b := chains[h][k];
            && -1 <= heads[b].prev < |heads| && -1 <= heads[b].next < |heads|
            && Together(UnlinkChain(heads, b), ring, chains[h := Without(chains[h], k)], b)
  {
    var b := chains[h][k];
    assert ChainOk(heads, chains[h], h) && ChainLinkAt(heads, chains[h], k);
    UnhashChains(heads, table, chains, h, k);
    var r := UnlinkChain(heads, b);
    var chains' := chains[h := Without(chains[h], k)];
    forall c | c in ring && c != b && r[c].dev != 0
      ensures c in chains'[Hash(r[c].dev, r[c].block)]
    {
      OtherMembers(chains, h, k, Hash(heads[c].dev, heads[c].block), c);
    }
    forall g, c | 0 <= g < NR_HASH && c in chains'[g]
      ensures c in ring && c != b
    {
      OtherMembers(chains, h, k, g, c);
    }
    forall c | c in ring && c != b && r[c].dev == 0
      ensures r[c].prev == -1 && r[c].next == -1
    {
      NotHashed(heads, table, chains, c);
    }
  }

  /** The chains without buffer b. */
  ghost function Unchained(heads: seq<Head>, ring: seq<nat>, chains: seq<seq<nat>>, b: nat): seq<seq<nat>>
    requires |chains| == NR_HASH && InRange(ring, |heads|) && Together(heads, ring, chains, -1) && b in ring
  {
    if heads[b].dev == 0 then chains
    else
      var h := Hash(heads[b].dev, heads[b].block);
      chains[h := Without(chains[h], IndexOf(chains[h], b))]
  }

  /** The hash half of remove_from_queues on the links. */
  lemma UnhashKeeps(heads: seq<Head>, table: seq<int>, ring: seq<nat>, chains: seq<seq<nat>>, b: nat)
    requires RingOk(heads, ring) && ChainsOk(heads, table, chains) && Together(heads, ring, chains, -1) && b in ring
    ensures -1 <= heads[b].prev < |heads| && -1 <= heads[b].next < |heads| && heads[b].prev != b && heads[b].next != b
    ensures var r, h, chains' := UnlinkChain(heads, b), Hash(heads[b].dev, heads[b].block),
              Unchained(heads, ring, chains, b);
            RingOk(r, ring) && ChainsOk(r, if table[h] == b then table[h := heads[b].next] else table, chains')
                && Together(r, ring, chains', b)
  {
    if heads[b].dev == 0 {
      NotHashed(heads, table, chains, b);
      assert UnlinkChain(heads, b) == heads;
    } else {
      var h := Hash(heads[b].dev, heads[b].block);
      var k := IndexOf(chains[h], b);
      UnhashChains(heads, table, chains, h, k);
      UnhashTogether(heads, table, ring, chains, h, k);
      UnhashRing(heads, ring, b);
    }
  }

  lemma TakeOffRingKeeps(heads: seq<Head>, table: seq<int>, ring: seq<nat>, chains: seq<seq<nat>>, k: nat)
    requires ChainsOk(heads, table, chains) && RingOk(heads, ring) && |ring| >= 2 && k < |ring|
    requires Together(heads, ring, chains, ring[k])
    ensures 0 <= heads[ring[k]].before < |heads| && 0 <= heads[ring[k]].after < |heads|
    ensures var r := UnlinkRing(heads, ring[k]);
            ChainsOk(r, table, chains) && RingOk(r, Without(ring, k)) && Together(r, Without(ring, k), chains, -1)
  {
    RingRemove(heads, ring, k);
    WithoutMembers(ring, k);
    var r := UnlinkRing(heads, ring[k]);
    forall h | 0 <= h < NR_HASH
      ensures ChainOk(r, chains[h], h)
    {
      assert ChainOk(heads, chains[h], h);
      ChainKept(heads, r, chains[h], h);
    }
    forall c | c in Without(ring, k)
      ensures SameChainLinks(heads[c], r[c]) && c in ring && c != ring[k]
    {
    }
  }

  lemma StampedWithout(ring: seq<nat>, stamp: seq<nat>, clock: nat, k: nat)
    requires Stamped(ring, stamp, clock) && k < |ring| && Distinct(ring)
    ensures Stamped(Without(ring, k), stamp, clock)
  {
    WithoutDistinct(ring, k, |stamp|);
  }

  // ----- putting a buffer back ------------------------------------------------

  /** At the end of the ring, with null chain links. */
  function LinkRing(heads: seq<Head>, b: nat, first: nat): (r: seq<Head>)
    requires b < |heads| && first < |heads| && 0 <= heads[first].before < |heads|
    ensures |r| == |heads|
  {
    var last := heads[first].before;
    var x := heads[b := heads[b].(after := first, before := last, prev := -1, next := -1)];
    var y := x[last := x[last].(after := b)];
    y[first := y[first].(before := b)]
  }

  lemma LinkRingKeeps(heads: seq<Head>, ring: seq<nat>, b: nat)
    requires RingOk(heads, ring) && b < |heads| && b !in ring
    ensures 0 <= heads[ring[0]].before < |heads|
    ensures RingOk(LinkRing(heads, b, ring[0]), ring + [b])
    ensures var r := LinkRing(heads, b, ring[0]);
            && r[b].prev == -1 && r[b].next == -1 && SameExceptLinks(heads, r)
            && forall c :: 0 <= c < |heads| && c != b ==> SameChainLinks(heads[c], r[c])
  {
    assert RingLinkAt(heads, ring, 0) && RingLinkAt(heads, ring, |ring| - 1);
    var r := LinkRing(heads, b, ring[0]);
    var w := ring + [b];
    forall j | 0 <= j < |w|
      ensures RingLinkAt(r, w, j)
    {
      assert j < |ring| ==> RingLinkAt(heads, ring, j);
    }
  }

  /** At the front of its bucket; the code's store through a null pointer for an empty bucket is left out. */
  function LinkChain(heads: seq<Head>, b: nat, first: int): (r: seq<Head>)
    requires b < |heads| && -1 <= first < |heads|
    ensures |r| == |heads|
  {
    var x := heads[b := heads[b].(next := first)];
    if first == -1 then x else x[first := x[first].(prev := b)]
  }

  lemma LinkChainFront(heads: seq<Head>, chain: seq<nat>, h: nat, b: nat)
    requires ChainOk(heads, chain, h) && b < |heads| && b !in chain && heads[b].prev == -1
    requires heads[b].dev != 0 && Hash(heads[b].dev, heads[b].block) == h
    ensures ChainOk(LinkChain(heads, b, First(chain)), [b] + chain, h)
  {
    var r := LinkChain(heads, b, First(chain));
    var w := [b] + chain;
    forall j | 0 <= j < |w|
      ensures ChainLinkAt(r, w, j)
    {
      assert j > 0 ==> ChainLinkAt(heads, chain, j - 1);
    }
  }

  lemma LinkChains(heads: seq<Head>, table: seq<int>, chains: seq<seq<nat>>, b: nat)
    requires ChainsOk(heads, table, chains) && b < |heads| && heads[b].dev != 0 && heads[b].prev == -1
    requires forall g :: 0 <= g < NR_HASH ==> b !in chains[g]
    ensures var h := Hash(heads[b].dev, heads[b].block);
            && -1 <= table[h] < |heads| && (table[h] != -1 ==> table[h] in chains[h])
            && ChainsOk(LinkChain(heads, b, table[h]), table[h := b], chains[h := [b] + chains[h]])
  {
    var h := Hash(heads[b].dev, heads[b].block);
    assert ChainOk(heads, chains[h], h);
    LinkChainFront(heads, chains[h], h, b);
    var r := LinkChain(heads, b, table[h]);
    forall g | 0 <= g < NR_HASH && g != h
      ensures ChainOk(r, chains[g], g)
    {
      assert ChainOk(heads, chains[g], g);
      forall j | 0 <= j < |chains[g]|
        ensures SameChainLinks(heads[chains[g][j]], r[chains[g][j]])
      {
        assert HashesTo(heads[chains[g][j]], g);
      }
      ChainKept(heads, r, chains[g], g);
    }
  }

  lemma LinkTogether(heads: seq<Head>, table: seq<int>, ring: seq<nat>, chains: seq<seq<nat>>, b: nat)
    requires ChainsOk(heads, table, chains) && RingOk(heads, ring) && b in ring && heads[b].dev != 0
    requires heads[b].prev == -1
    requires Together(heads, ring, chains, b)
    ensures var h := Hash(heads[b].dev, heads[b].block);
            && -1 <= table[h] < |heads|
            && var r := LinkChain(heads, b, table[h]);
               RingOk(r, ring) && SameExceptLinks(heads, r) && Together(r, ring, chains[h := [b] + chains[h]], -1)
  {
    var h := Hash(heads[b].dev, heads[b].block);
    LinkChains(heads, table, chains, b);
    var r := LinkChain(heads, b, table[h]);
    RingKept(heads, r, ring);
    forall c | c in ring && r[c].dev == 0
      ensures r[c].prev == -1 && r[c].next == -1
    {
      assert heads[c].prev == -1;
      NotHashed(heads, table, chains, c);
    }
  }

  predicate SameExceptLinks(x: seq<Head>, y: seq<Head>) {
    |x| == |y| && forall c :: 0 <= c < |x| ==>
        y[c].dev == x[c].dev && y[c].block == x[c].block && y[c].count == x[c].count
  }

  lemma PutOnRingKeeps(heads: seq<Head>, r: seq<Head>, table: seq<int>, ring: seq<nat>, chains: seq<seq<nat>>, b: nat)
    requires ChainsOk(heads, table, chains) && RingOk(heads, ring) && Together(heads, ring, chains, -1)
    requires b < |heads| && b !in ring && |r| == |heads|
    requires forall c :: 0 <= c < |heads| && c != b ==> SameChainLinks(heads[c], r[c])
    ensures ChainsOk(r, table, chains) && Together(r, ring + [b], chains, b)
  {
    forall h | 0 <= h < NR_HASH
      ensures ChainOk(r, chains[h], h)
    {
      assert ChainOk(heads, chains[h], h);
      assert b !in chains[h];
      ChainKept(heads, r, chains[h], h);
    }
  }

  lemma StampedPlus(ring: seq<nat>, stamp: seq<nat>, clock: nat, b: nat)
    requires Stamped(ring, stamp, clock) && b < |stamp| && b !in ring
    ensures Stamped(ring + [b], stamp[b := clock], clock + 1)
  {
  }

  class Queues {
    var heads: seq<Head>
    var hashTable: seq<int>
    var freeList: nat
    /** The ring from free_list on, the chains, and when each buffer was put at the end of the ring. */
    ghost var ring: seq<nat>
    ghost var chains: seq<seq<nat>>
    ghost var stamp: seq<nat>
    ghost var clock: nat

    ghost predicate Valid()
      reads this
    {
      && RingOk(heads, ring) && freeList == ring[0] && ChainsOk(heads, hashTable, chains)
      && Together(heads, ring, chains, -1) && |stamp| == |heads| && Stamped(ring, stamp, clock)
    }

    /** buffer_init: n buffers in address order, all chains empty. */
    constructor (n: nat)
      requires n > 0
      ensures Valid() && ring == seq(n, i => i) && |heads| == n
      ensures forall b :: 0 <= b < n ==> heads[b].dev == 0 && heads[b].count == 0
    {
      heads := seq(n, i requires 0 <= i < n => BootHead(n, i));
      hashTable := seq(NR_HASH, _ => -1);
      freeList := 0;
      ring := seq(n, i => i);
      chains := seq(NR_HASH, _ => []);
      stamp := seq(n, i => i);
      clock := n;
      new;
      assert forall i :: 0 <= i < n ==> heads[i] == BootHead(n, i);
      assert forall i :: 0 <= i < n ==> ring[i] == i;
      assert forall k :: 0 <= k < n ==> RingLinkAt(heads, ring, k);
      assert forall h :: 0 <= h < NR_HASH ==> chains[h] == [] && hashTable[h] == -1;
    }

    /** find_buffer: the hash walk finds exactly what a scan of all queued buffers would. */
    method FindBuffer(dev: nat, block: nat) returns (b: int)
      requires Valid() && dev != 0
      ensures b != -1 ==> 0 <= b < |heads| && b in ring && heads[b].dev == dev && heads[b].block == block
      ensures b == -1 ==> forall c :: c in ring ==> heads[c].dev != dev || heads[c].block != block
    {
      ghost var chain := chains[Hash(dev, block)];
      assert ChainOk(heads, chain, Hash(dev, block));
      b := hashTable[Hash(dev, block)];
      ghost var k := 0;
      while b != -1
        invariant 0 <= k <= |chain|
        invariant b == if k == |chain| then -1 else chain[k]
        invariant forall j :: 0 <= j < k ==> heads[chain[j]].dev != dev || heads[chain[j]].block != block
        decreases |chain| - k
      {
        if heads[b].dev == dev && heads[b].block == block {
          assert chain[k] in chains[Hash(dev, block)];
          return;
        }
        assert ChainLinkAt(heads, chain, k);
        b := heads[b].next;
        k := k + 1;
      }
    }

    /** The loop of getblk with nobody asleep: the unreferenced buffer that was inserted longest ago. */
    method FindVictim() returns (b: int)
      requires Valid()
      ensures b == -1 ==> forall c :: c in ring ==> heads[c].count > 0
      ensures b != -1 ==> 0 <= b < |heads| && b in ring && heads[b].count == 0
      ensures b != -1 ==> forall c :: c in ring && c != b && heads[c].count == 0 ==> stamp[b] < stamp[c]
    {
      var tmp := freeList;
      ghost var k := 0;
      while true
        invariant 0 <= k < |ring| && tmp == ring[k]
        invariant forall j :: 0 <= j < k ==> heads[ring[j]].count > 0
        decreases |ring| - k
      {
        if heads[tmp].count == 0 {
          return tmp;
        }
        assert RingLinkAt(heads, ring, k);
        assert k < |ring| - 1 ==> ring[k + 1] != ring[0];
        tmp := heads[tmp].after;
        k := k + 1;
        if tmp == freeList {
          return -1;
        }
      }
    }

    /** remove_from_queues: off its chain and off the ring.  At least two buffers are on the ring. */
    method RemoveFromQueues(b: nat)
      requires Valid() && b in ring && |ring| >= 2
      modifies this
      ensures Valid() && b !in ring && b < |heads| && stamp == old(stamp) && SameExceptLinks(old(heads), heads)
      ensures ring == Without(old(ring), IndexOf(old(ring), b))
    {
      TakeOffChain(b);
      TakeOffRing(b);
    }

    /** The hash half of remove_from_queues. */
    method TakeOffChain(b: nat)
      requires Valid() && b in ring
      modifies `heads, `hashTable, `chains
      ensures RingOk(heads, ring) && ChainsOk(heads, hashTable, chains) && Together(heads, ring, chains, b)
      ensures SameExceptLinks(old(heads), heads)
    {
      var h := Hash(heads[b].dev, heads[b].block);
      UnhashKeeps(heads, hashTable, ring, chains, b);
      ghost var without := Unchained(heads, ring, chains, b);
      ghost var table := if hashTable[h] == b then hashTable[h := heads[b].next] else hashTable;
      SpliceChain(b);
      if hashTable[h] == b {
        hashTable := hashTable[h := heads[b].next];
      }
      assert hashTable == table;
      chains := without;
    }

    /** The neighbours on the chain are joined. */
    method SpliceChain(b: nat)
      requires b < |heads| && -1 <= heads[b].prev < |heads| && -1 <= heads[b].next < |heads|
      requires heads[b].prev != b && heads[b].next != b
      modifies `heads
      ensures heads == UnlinkChain(old(heads), b) && heads[b] == old(heads)[b]
    {
      if heads[b].next != -1 {
        heads := heads[heads[b].next := heads[heads[b].next].(prev := heads[b].prev)];
      }
      if heads[b].prev != -1 {
        heads := heads[heads[b].prev := heads[heads[b].prev].(next := heads[b].next)];
      }
    }

    /** The ring half. */
    method TakeOffRing(b: nat)
      requires RingOk(heads, ring) && freeList == ring[0] && ChainsOk(heads, hashTable, chains)
      requires Together(heads, ring, chains, b)
      requires b in ring && |ring| >= 2 && |stamp| == |heads| && Stamped(ring, stamp, clock)
      modifies `heads, `freeList, `ring
      ensures Valid() && b !in ring && b < |heads| && SameExceptLinks(old(heads), heads)
      ensures ring == Without(old(ring), IndexOf(old(ring), b))
    {
      ghost var k := IndexOf(ring, b);
      TakeOffRingKeeps(heads, hashTable, ring, chains, k);
      assert RingLinkAt(heads, ring, k);
      WithoutMembers(ring, k);
      StampedWithout(ring, stamp, clock, k);
      if freeList == b {
        freeList := heads[b].after;
      }
      assert freeList == Without(ring, k)[0];
      SpliceRing(b);
      ring := Without(ring, k);
    }

    /** The neighbours on the ring are joined. */
    method SpliceRing(b: nat)
      requires b < |heads| && 0 <= heads[b].before < |heads| && 0 <= heads[b].after < |heads|
      requires heads[b].before != b && heads[b].after != b
      modifies `heads
      ensures heads == UnlinkRing(old(heads), b)
    {
      heads := heads[heads[b].before := heads[heads[b].before].(after := heads[b].after)];
      heads := heads[heads[b].after := heads[heads[b].after].(before := heads[b].before)];
    }

    /** getblk gives a buffer that is off the queues its new block. */
    method Rename(b: nat, dev: nat, block: nat, count: nat)
      requires Valid() && b < |heads| && b !in ring
      modifies `heads
      ensures Valid()
      ensures heads == old(heads)[b := old(heads)[b].(dev := dev, block := block, count := count)]
    {
      ghost var was := heads;
      heads := heads[b := heads[b].(dev := dev, block := block, count := count)];
      RingKept(was, heads, ring);
      forall h | 0 <= h < NR_HASH
        ensures ChainOk(heads, chains[h], h)
      {
        assert ChainOk(was, chains[h], h);
        ChainKept(was, heads, chains[h], h);
      }
    }

    /** insert_into_queues: the end of the ring and the front of the bucket. */
    method InsertIntoQueues(b: nat)
      requires Valid() && b < |heads| && b !in ring
      modifies this
      ensures Valid() && ring == old(ring) + [b] && SameExceptLinks(old(heads), heads)
      ensures forall c :: c in old(ring) ==> stamp[c] == old(stamp)[c]
    {
      PutOnRing(b);
      if heads[b].dev != 0 {
        PutOnChain(b);
      }
    }

    method PutOnRing(b: nat)
      requires Valid() && b < |heads| && b !in ring
      modifies `heads, `ring, `stamp, `clock
      ensures RingOk(heads, ring) && freeList == ring[0] && ChainsOk(heads, hashTable, chains)
      ensures Together(heads, ring, chains, b)
      ensures ring == old(ring) + [b] && SameExceptLinks(old(heads), heads) && heads[b].prev == -1
      ensures heads[b].next == -1
      ensures |stamp| == |heads| && Stamped(ring, stamp, clock) && forall c :: c in old(ring) ==>
                stamp[c] == old(stamp)[c]
    {
      LinkRingKeeps(heads, ring, b);
      assert RingLinkAt(heads, ring, 0);
      var last := heads[freeList].before;
      var hs := heads[b := heads[b].(after := freeList, before := last, prev := -1, next := -1)];
      hs := hs[last := hs[last].(after := b)];
      hs := hs[freeList := hs[freeList].(before := b)];
      assert hs == LinkRing(heads, b, freeList);
      PutOnRingKeeps(heads, hs, hashTable, ring, chains, b);
      StampedPlus(ring, stamp, clock, b);
      heads := hs;
      ring := ring + [b];
      stamp := stamp[b := clock];
      clock := clock + 1;
    }

    method PutOnChain(b: nat)
      requires RingOk(heads, ring) && freeList == ring[0] && ChainsOk(heads, hashTable, chains)
      requires Together(heads, ring, chains, b)
      requires |stamp| == |heads| && Stamped(ring, stamp, clock)
      requires b in ring && heads[b].dev != 0 && heads[b].prev == -1
      modifies `heads, `hashTable, `chains
      ensures Valid() && SameExceptLinks(old(heads), heads)
    {
      LinkChains(heads, hashTable, chains, b);
      LinkTogether(heads, hashTable, ring, chains, b);
      var h := Hash(heads[b].dev, heads[b].block);
      var first := hashTable[h];
      var hs := heads[b := heads[b].(next := first)];
      hashTable := hashTable[h := b];
      if first != -1 {
        hs := hs[first := hs[first].(prev := b)];
      }
      assert hs == LinkChain(heads, b, first);
      heads := hs;
      chains := chains[h := [b] + chains[h]];
    }
  }
}
