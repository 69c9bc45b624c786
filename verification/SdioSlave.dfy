/**
 The SDIO slave driver itself: linked lists of buffers, the loader and the
 end-of-frame interrupt. Every execution of these methods is a run of the step
 system in module SdioPool, which the ghost field `log` records.

 The five list nodes are allocated once and never freed, so they are named by the
 numbers 0 to 4, and a pointer is such a number or NULL. `filled[n]` is the part of
 node n's buffer in front of its tail pointer.
 */
module SdioSlave {
  import opened Bytes
  import opened Wrappers
  import opened SdioPool

  const NULL := -1

  // ---------------------------------------------------------------- lists of nodes

  /** Nodes, none of them twice. */
  ghost predicate Nodes(s: seq<int>) {
    && (forall i | 0 <= i < |s| :: 0 <= s[i] < BUFFER_NUM)
    && (forall i, j | 0 <= i < j < |s| :: s[i] != s[j])
  }

  ghost predicate Disjoint(a: seq<int>, b: seq<int>) {
    forall i, j | 0 <= i < |a| && 0 <= j < |b| :: a[i] != b[j]
  }

  /** The nodes reached from `head` are `s`, in order, and the last one's link is NULL. */
  ghost predicate Chain(next: seq<int>, head: int, s: seq<int>) {
    && |next| == BUFFER_NUM && Nodes(s)
    && head == (if s == [] then NULL else s[0])
    && forall i {:trigger next[s[i]]} | 0 <= i < |s| :: next[s[i]] == if i + 1 < |s| then s[i + 1] else NULL
  }

  /** The nodes hold these contents. */
  ghost predicate Holds(filled: seq<seq<Byte>>, s: seq<int>, contents: seq<seq<Byte>>) {
    && |filled| == BUFFER_NUM && Nodes(s)
    && |s| == |contents|
    && forall i {:trigger s[i]} {:trigger contents[i]} | 0 <= i < |s| :: filled[s[i]] == contents[i]
  }

  /** The three places a node can be. */
  datatype Places = Places(free: seq<int>, hand: seq<int>, send: seq<int>)

  /** Both lists are proper chains with the right tails, and every node is in one place.
      The clause on an empty free list is what makes giving the last buffer back
      correct: the tail pointer still names it. */
  ghost predicate Lists(next: seq<int>, headSended: int, tailSended: int, headToSend: int, tailToSend: int, p: Places) {
    && |p.free| + |p.hand| + |p.send| == BUFFER_NUM && Nodes(p.hand) && |p.hand| <= 1
    && Disjoint(p.free, p.send) && Disjoint(p.free, p.hand) && Disjoint(p.hand, p.send)
    && Chain(next, headSended, p.free) && Chain(next, headToSend, p.send)
    && (p.free != [] ==> tailSended == p.free[|p.free| - 1])
    && (p.free == [] && p.hand != [] ==> tailSended == p.hand[0])
    && (p.send != [] ==> tailToSend == p.send[|p.send| - 1])
  }

  ghost predicate Contents(filled: seq<seq<Byte>>, p: Places, pool: Pool) {
    Holds(filled, p.free, pool.free) && Holds(filled, p.send, pool.send) && Holds(filled, p.hand, HandSeq(pool))
  }

  ghost predicate Link(hasRead: bool, started: bool, bufPtr: int, datalen: nat, p: Places, pool: Pool) {
    && hasRead == pool.hasRead
    && started == pool.inFlight
    && (started ==> p.send != [] && pool.send != [] && bufPtr == p.send[0] && datalen == |pool.send[0]|)
  }

  // ---------------------------------------------------------------- single lists

  lemma AppendChain(next: seq<int>, head: int, tail: int, s: seq<int>, n: int)
    requires Chain(next, head, s) && 0 <= n < BUFFER_NUM && n !in s
    requires s != [] ==> tail == s[|s| - 1]
    ensures s != [] ==> 0 <= tail < BUFFER_NUM && tail in s
    ensures Chain((if s == [] then next else next[tail := n])[n := NULL], if s == [] then n else head, s + [n])
  {
  }

  lemma KeepChain(next: seq<int>, next': seq<int>, head: int, s: seq<int>)
    requires Chain(next, head, s) && |next'| == |next|
    requires forall n | n in s :: 0 <= n < BUFFER_NUM && next'[n] == next[n]
    ensures Chain(next', head, s)
  {
    assert forall i | 0 <= i < |s| :: s[i] in s;
  }

  lemma RestChain(next: seq<int>, head: int, s: seq<int>)
    requires Chain(next, head, s) && s != []
    ensures 0 <= head < BUFFER_NUM && head == s[0] && s == [s[0]] + s[1..]
    ensures Chain(next, next[head], s[1..]) && s[0] !in s[1..]
  {
  }

  lemma PrependChain(next: seq<int>, head: int, s: seq<int>, n: int)
    requires Chain(next, head, s) && 0 <= n < BUFFER_NUM && n !in s
    ensures Chain(next[n := head], n, [n] + s)
  {
  }

  lemma KeepHolds(filled: seq<seq<Byte>>, n: int, v: seq<Byte>, s: seq<int>, c: seq<seq<Byte>>)
    requires Holds(filled, s, c) && 0 <= n < BUFFER_NUM && n !in s
    ensures Holds(filled[n := v], s, c)
  {
  }

  lemma AppendHolds(filled: seq<seq<Byte>>, s: seq<int>, c: seq<seq<Byte>>, n: int)
    requires Holds(filled, s, c) && 0 <= n < BUFFER_NUM && n !in s
    ensures Holds(filled, s + [n], c + [filled[n]])
    ensures Holds(filled, [n] + s, [filled[n]] + c)
    ensures Holds(filled, [n], [filled[n]])
  {
  }

  lemma RestHolds(filled: seq<seq<Byte>>, s: seq<int>, c: seq<seq<Byte>>)
    requires Holds(filled, s, c) && s != []
    ensures c != [] && 0 <= s[0] < BUFFER_NUM && s[0] !in s[1..]
    ensures Holds(filled, s[1..], c[1..]) && filled[s[0]] == c[0]
  {
  }

  /** Contents depend on the three places of the pool only. */
  lemma SameContents(filled: seq<seq<Byte>>, p: Places, pool: Pool, pool': Pool)
    requires Contents(filled, p, pool)
    requires pool'.free == pool.free && pool'.send == pool.send && pool'.hand == pool.hand
    ensures Contents(filled, p, pool')
  {
  }

  lemma HeadContents(filled: seq<seq<Byte>>, p: Places, pool: Pool, next: seq<int>, head: int)
    requires Contents(filled, p, pool) && Chain(next, head, p.send) && p.send != []
    ensures |filled| == BUFFER_NUM && 0 <= head < BUFFER_NUM && head == p.send[0]
    ensures pool.send != [] && filled[head] == pool.send[0]
  {
  }

  // ---------------------------------------------------------------- moves between the places

  function Recycling(p: Places): Places
    requires p.send != []
  {
    p.(free := p.free + [p.send[0]], send := p.send[1..])
  }

  function Starting(p: Places): Places
    requires p.free != []
  {
    p.(free := p.free[1..], send := [p.free[0]])
  }

  function Taking(p: Places): Places
    requires p.free != []
  {
    p.(free := p.free[1..], hand := [p.free[0]])
  }

  function Returning(p: Places): Places {
    p.(free := p.hand + p.free, hand := [])
  }

  function Queueing(p: Places): Places {
    p.(send := p.send + p.hand, hand := [])
  }

  lemma MoveDisjoint(p: Places)
    requires Disjoint(p.free, p.send) && Disjoint(p.free, p.hand) && Disjoint(p.hand, p.send)
    requires Nodes(p.send) && p.send != []
    ensures p.send[0] !in p.free
    ensures forall n | n in p.free :: n !in p.send[1..]
    ensures var q := Recycling(p);
      Disjoint(q.free, q.send) && Disjoint(q.free, q.hand) && Disjoint(q.hand, q.send)
  {
  }

  lemma RecycleLists(next: seq<int>, hs: int, ts: int, ht: int, tt: int, p: Places)
    requires Lists(next, hs, ts, ht, tt, p) && p.send != []
    ensures |next| == BUFFER_NUM && 0 <= ht < BUFFER_NUM && ht == p.send[0]
    ensures Disjoint(p.free, p.send) && Disjoint(p.hand, p.send)
    ensures hs != NULL <==> p.free != []
    ensures hs != NULL ==> 0 <= ts < BUFFER_NUM && ts != ht
    ensures Lists((if hs != NULL then next[ts := ht] else next)[ht := NULL],
                  if hs != NULL then hs else ht, ht, next[ht], tt, Recycling(p))
  {
    hide Disjoint;
    RestChain(next, ht, p.send);
    MoveDisjoint(p);
    AppendChain(next, hs, ts, p.free, ht);
    var linked := (if p.free == [] then next else next[ts := ht])[ht := NULL];
    KeepChain(next, linked, next[ht], p.send[1..]);
  }

  lemma RecycleContents(filled: seq<seq<Byte>>, p: Places, pool: Pool)
    requires Contents(filled, p, pool) && p.send != []
    requires Disjoint(p.free, p.send) && Disjoint(p.hand, p.send)
    ensures |filled| == BUFFER_NUM && pool.send != [] && 0 <= p.send[0] < BUFFER_NUM
    ensures filled[p.send[0]] == pool.send[0]
    ensures Contents(filled[p.send[0] := []], Recycling(p), Recycled(pool))
  {
    var n := p.send[0];
    RestHolds(filled, p.send, pool.send);
    KeepHolds(filled, n, [], p.send[1..], pool.send[1..]);
    KeepHolds(filled, n, [], p.free, pool.free);
    KeepHolds(filled, n, [], p.hand, HandSeq(pool));
    AppendHolds(filled[n := []], p.free, pool.free, n);
  }

  /** The first free buffer becomes the only one to send. */
  lemma StartLists(next: seq<int>, hs: int, ts: int, ht: int, tt: int, p: Places)
    requires Lists(next, hs, ts, ht, tt, p) && p.free != [] && p.send == [] && p.hand == []
    ensures |next| == BUFFER_NUM && 0 <= hs < BUFFER_NUM && hs == p.free[0]
    ensures Lists(next[hs := NULL], next[hs], ts, hs, hs, Starting(p))
  {
    RestChain(next, hs, p.free);
    KeepChain(next, next[hs := NULL], next[hs], p.free[1..]);
  }

  lemma StartContents(filled: seq<seq<Byte>>, p: Places, pool: Pool)
    requires Contents(filled, p, pool) && p.free != []
    ensures pool.free != [] && |filled| == BUFFER_NUM && 0 <= p.free[0] < BUFFER_NUM
    ensures filled[p.free[0]] == pool.free[0]
    ensures Contents(filled, Starting(p), pool.(free := pool.free[1..], send := [pool.free[0]]))
  {
    RestHolds(filled, p.free, pool.free);
  }

  lemma TakeDisjoint(p: Places)
    requires Disjoint(p.free, p.send) && p.free != [] && p.free[0] !in p.free[1..]
    ensures Disjoint(p.free[1..], p.send) && Disjoint([p.free[0]], p.send) && Disjoint(p.free[1..], [p.free[0]])
  {
  }

  lemma TakeLists(next: seq<int>, hs: int, ts: int, ht: int, tt: int, p: Places)
    requires Lists(next, hs, ts, ht, tt, p) && p.hand == [] && p.free != []
    ensures |next| == BUFFER_NUM && 0 <= hs < BUFFER_NUM && hs == p.free[0]
    ensures Lists(next, next[hs], ts, ht, tt, Taking(p))
  {
    hide Disjoint, Chain;
    RestChain(next, hs, p.free);
    TakeDisjoint(p);
  }

  lemma TakeContents(filled: seq<seq<Byte>>, p: Places, pool: Pool)
    requires Contents(filled, p, pool) && p.hand == [] && p.free != []
    ensures pool.free != [] && |filled| == BUFFER_NUM && 0 <= p.free[0] < BUFFER_NUM
    ensures filled[p.free[0]] == pool.free[0]
    ensures Contents(filled, Taking(p), Take(pool))
  {
    RestHolds(filled, p.free, pool.free);
  }

  lemma FillContents(filled: seq<seq<Byte>>, p: Places, pool: Pool, chunk: seq<Byte>)
    requires Contents(filled, p, pool) && p.hand != []
    requires Disjoint(p.free, p.hand) && Disjoint(p.hand, p.send)
    ensures pool.hand.Some? && |filled| == BUFFER_NUM && 0 <= p.hand[0] < BUFFER_NUM
    ensures filled[p.hand[0]] == pool.hand.value
    ensures Contents(filled[p.hand[0] := pool.hand.value + chunk], p, Fill(pool, chunk))
  {
    var n := p.hand[0];
    KeepHolds(filled, n, pool.hand.value + chunk, p.free, pool.free);
    KeepHolds(filled, n, pool.hand.value + chunk, p.send, pool.send);
  }

  /** The loader's buffer is in neither list, and may go to either. */
  lemma HandDisjoint(p: Places)
    requires Disjoint(p.free, p.send) && Disjoint(p.free, p.hand) && Disjoint(p.hand, p.send)
    requires Nodes(p.hand) && |p.hand| == 1
    ensures p.hand == [p.hand[0]] && 0 <= p.hand[0] < BUFFER_NUM
    ensures p.hand[0] !in p.free && p.hand[0] !in p.send && forall n | n in p.send :: n !in p.free
    ensures forall q | q == Returning(p) || q == Queueing(p) ::
      Disjoint(q.free, q.send) && Disjoint(q.free, q.hand) && Disjoint(q.hand, q.send) && Nodes(q.hand)
  {
  }

  lemma ChainLength(next: seq<int>, head: int, s: seq<int>)
    requires Chain(next, head, s)
    ensures |next| == BUFFER_NUM && (head == NULL <==> s == []) && forall n | n in s :: 0 <= n < BUFFER_NUM
  {
  }

  /** Where the stale tail pointer matters: with an empty free list it already names
      the node that is given back. */
  lemma ReturnLists(next: seq<int>, hs: int, ts: int, ht: int, tt: int, p: Places)
    requires Lists(next, hs, ts, ht, tt, p) && p.hand != []
    ensures |next| == BUFFER_NUM && 0 <= p.hand[0] < BUFFER_NUM
    ensures Lists(next[p.hand[0] := hs], p.hand[0], ts, ht, tt, Returning(p))
  {
    hide Disjoint, Chain;
    HandDisjoint(p);
    ChainLength(next, hs, p.free);
    ChainLength(next, ht, p.send);
    PrependChain(next, hs, p.free, p.hand[0]);
    KeepChain(next, next[p.hand[0] := hs], ht, p.send);
  }

  lemma ReturnContents(filled: seq<seq<Byte>>, p: Places, pool: Pool)
    requires Contents(filled, p, pool) && p.hand != [] && Disjoint(p.free, p.hand)
    ensures pool.hand.Some? && Contents(filled, Returning(p), PutBack(pool))
  {
    AppendHolds(filled, p.free, pool.free, p.hand[0]);
    assert p.hand == [p.hand[0]];
  }

  lemma QueueLists(next: seq<int>, hs: int, ts: int, ht: int, tt: int, p: Places)
    requires Lists(next, hs, ts, ht, tt, p) && p.hand != []
    ensures |next| == BUFFER_NUM && 0 <= p.hand[0] < BUFFER_NUM
    ensures ht == NULL <==> p.send == []
    ensures ht != NULL ==> 0 <= tt < BUFFER_NUM && tt != p.hand[0]
    ensures Lists((if ht == NULL then next else next[tt := p.hand[0]])[p.hand[0] := NULL], hs, ts,
                  if ht == NULL then p.hand[0] else ht, p.hand[0], Queueing(p))
  {
    hide Disjoint, Chain;
    var n := p.hand[0];
    HandDisjoint(p);
    ChainLength(next, ht, p.send);
    ChainLength(next, hs, p.free);
    AppendChain(next, ht, tt, p.send, n);
    KeepChain(next, (if ht == NULL then next else next[tt := n])[n := NULL], hs, p.free);
  }

  lemma QueueContents(filled: seq<seq<Byte>>, p: Places, pool: Pool)
    requires Contents(filled, p, pool) && p.hand != [] && Disjoint(p.hand, p.send)
    ensures pool.hand.Some? && |pool.send| == |p.send|
    ensures Contents(filled, Queueing(p), pool.(send := pool.send + [pool.hand.value], hand := None))
  {
    AppendHolds(filled, p.send, pool.send, p.hand[0]);
    assert p.hand == [p.hand[0]];
  }

  lemma FreshLists()
    ensures Lists([1, 2, 3, 4, NULL], 0, 4, NULL, NULL, Places([0, 1, 2, 3, 4], [], []))
  {
    var s := [0, 1, 2, 3, 4];
    assert forall i | 0 <= i < |s| :: s[i] == i;
    assert Chain([1, 2, 3, 4, NULL], 0, s);
  }

  lemma FreshContents()
    ensures Contents([[], [], [], [], []], Places([0, 1, 2, 3, 4], [], []), FRESH_POOL)
  {
    var s := [0, 1, 2, 3, 4];
    assert forall i | 0 <= i < |s| :: s[i] == i;
  }

  /** What the pointers say about the pool. */
  lemma Sizes(next: seq<int>, hs: int, ts: int, ht: int, tt: int, filled: seq<seq<Byte>>, p: Places, pool: Pool)
    requires Lists(next, hs, ts, ht, tt, p) && Contents(filled, p, pool)
    ensures |p.free| == |pool.free| && |p.send| == |pool.send| && |p.hand| == |HandSeq(pool)|
    ensures (hs == NULL <==> p.free == []) && (ht == NULL <==> p.send == [])
    ensures |filled| == |next| == BUFFER_NUM
    ensures hs != NULL ==> 0 <= hs < BUFFER_NUM && filled[hs] == pool.free[0] && hs == p.free[0]
    ensures p.hand != [] ==> 0 <= p.hand[0] < BUFFER_NUM && filled[p.hand[0]] == pool.hand.value
  {
  }

  /** What the copying stretch does to the run. */
  lemma CopyStep(s: System, k: nat)
    requires SystemInv(s) && s.phase == Holding
    requires k == Min(|s.rest|, BUFFER_SIZE - |s.pool.hand.value|)
    ensures Next(s, Advance) ==
      System(Fill(s.pool, s.rest[..k]), Filled, s.rest[k..], s.accepted + s.rest[..k])
  {
  }

  lemma Slices(data: seq<Byte>, i: nat, k: nat, before: seq<Byte>)
    requires i + k <= |data|
    ensures data[i..][..k] == data[i..i + k]
    ensures data[i..][k..] == data[i + k..]
    ensures before + data[..i] + data[i..i + k] == before + data[..i + k]
  {
  }

  // ---------------------------------------------------------------- the driver

  class Slave {
    var next: seq<int>
    var filled: seq<seq<Byte>>
    var headToSend: int
    var tailToSend: int
    var headSended: int
    var tailSended: int
    var hasRead: bool

    // The receive descriptor `rx_que`, and whether the hardware works on it.
    var bufPtr: int
    var datalen: nat
    var started: bool

    ghost var places: Places
    ghost var pool: Pool
    ghost var sys: System
    ghost var log: seq<Step>

    /** The lists in memory are the pool. */
    ghost predicate Valid()
      reads this
    {
      && Lists(next, headSended, tailSended, headToSend, tailToSend, places)
      && Contents(filled, places, pool)
      && Link(hasRead, started, bufPtr, datalen, places, pool)
    }

    /** A point where an interrupt may come: memory agrees with the recorded run. */
    ghost predicate Synced()
      reads this
    {
      Valid() && sys.pool == pool && Run(START, log) == Some(sys)
    }

    /** `sdio_slave_init`: five empty buffers, linked one after the other. */
    constructor ()
      ensures Synced() && sys == START && log == []
    {
      FreshLists();
      FreshContents();
      hide Lists, Contents;
      next, filled := [1, 2, 3, 4, NULL], [[], [], [], [], []];
      headToSend, tailToSend := NULL, NULL;
      headSended, tailSended := 0, 4;
      hasRead := true;
      bufPtr, datalen, started := 0, 0, false;
      places := Places([0, 1, 2, 3, 4], [], []);
      pool, sys, log := FRESH_POOL, START, [];
    }

    /** `rx_buff_load_done`: a buffer without bytes does not start the link. The block
        size is that of a buffer, so the clamp never acts. */
    method LoadDone(rxLen: nat)
      requires rxLen <= BUFFER_SIZE
      modifies this`datalen, this`started
      ensures datalen == if rxLen == 0 then old(datalen) else rxLen
      ensures started == (old(started) || rxLen != 0)
    {
      if rxLen == 0 {
        return;
      }
      datalen := rxLen;
      started := true;
    }

    /** Points the descriptor at the head of the send list and starts it. */
    method LoadHead()
      requires Valid() && places.send != [] && !started && |pool.send[0]| <= BUFFER_SIZE
      modifies this`bufPtr, this`datalen, this`started, this`hasRead, this`pool
      ensures Valid() && pool == Load(old(pool))
    {
      HeadContents(filled, places, pool, next, headToSend);
      hide Lists, Contents;
      bufPtr := headToSend;
      LoadDone(|filled[headToSend]|);
      hasRead := false;
      SameContents(filled, places, pool, Load(pool));
      pool := Load(pool);
    }

    /** First half of `sdio_read_done_process`: the buffer the host has read is emptied
        and goes to the end of the free list. */
    method Recycle()
      requires Valid() && started
      modifies this`hasRead, this`started, this`next, this`filled, this`tailSended, this`headSended
      modifies this`headToSend, this`places, this`pool
      ensures Valid() && pool == Recycled(old(pool)) && places == Recycling(old(places))
    {
      hide Lists, Contents, Disjoint;
      RecycleLists(next, headSended, tailSended, headToSend, tailToSend, places);
      RecycleContents(filled, places, pool);
      ghost var delivered := filled[bufPtr][..datalen];
      assert delivered == pool.send[0];
      started := false;

      hasRead := true;
      filled := filled[headToSend := []];
      if headSended != NULL {
        next := next[tailSended := headToSend];
        tailSended := next[tailSended];
      } else {
        tailSended := headToSend;
        headSended := tailSended;
      }
      headToSend := next[headToSend];
      next := next[tailSended := NULL];

      places, pool := Recycling(places), Recycled(pool);
    }

    /** The head of the free list becomes the send list and is loaded. */
    method StartPartial()
      requires Valid() && places.free != [] && places.send == [] && places.hand == []
      requires !started && |pool.free[0]| <= BUFFER_SIZE
      modifies this`hasRead, this`started, this`next, this`tailToSend, this`headSended
      modifies this`headToSend, this`places, this`pool, this`bufPtr, this`datalen
      ensures Valid() && places == Starting(old(places))
      ensures old(pool).free != []
      ensures pool == Load(old(pool).(send := [old(pool).free[0]], free := old(pool).free[1..]))
    {
      StartLists(next, headSended, tailSended, headToSend, tailToSend, places);
      StartContents(filled, places, pool);
      hide Lists, Contents;
      headToSend := headSended;
      tailToSend := headToSend;
      headSended := next[headSended];
      next := next[tailToSend := NULL];
      places, pool := Starting(places), pool.(send := [pool.free[0]], free := pool.free[1..]);
      LoadHead();
    }

    /** The end-of-frame interrupt, `sdio_read_done_process`. */
    method ReadDone()
      requires Valid() && Inv(pool) && started
      modifies this`hasRead, this`started, this`next, this`filled, this`tailSended, this`headSended
      modifies this`headToSend, this`tailToSend, this`places, this`pool, this`bufPtr, this`datalen
      ensures Valid() && pool == Complete(old(pool)) && places.hand == old(places.hand)
    {
      hide Lists, Contents, Stream;
      CompleteKeeps(pool);
      Sizes(next, headSended, tailSended, headToSend, tailToSend, filled, places, pool);
      Recycle();
      Sizes(next, headSended, tailSended, headToSend, tailToSend, filled, places, pool);
      if headToSend != NULL {
        LoadHead();
      } else if headSended != NULL && |filled[headSended]| != 0 {
        StartPartial();
      }
    }

    /** Interrupts are enabled here: any number of reads may complete. */
    method Window()
      requires Synced() && SystemInv(sys)
      modifies this`hasRead, this`started, this`next, this`filled, this`tailSended, this`headSended
      modifies this`headToSend, this`tailToSend, this`places, this`pool, this`bufPtr, this`datalen, this`sys, this`log
      ensures Synced() && SystemInv(sys)
      ensures sys == old(sys).(pool := pool) && places.hand == old(places.hand) && pool.hand == old(pool.hand)
      ensures Extends(old(log), log) && Capacity(pool) >= Capacity(old(pool))
    {
      hide Lists, Contents, Inv, Extends, Capacity;
      ExtendsSelf(log, Interrupt);
      var completions: nat := *;
      while completions > 0 && started
        invariant Synced() && SystemInv(sys)
        invariant sys == old(sys).(pool := pool) && places.hand == old(places.hand) && pool.hand == old(pool.hand)
        invariant Extends(old(log), log) && Capacity(pool) >= Capacity(old(pool))
      {
        CompleteCapacity(pool);
        ExtendsSelf(log, Interrupt);
        ExtendsOn(old(log), log, log + [Interrupt]);
        ghost var before := sys;
        NextKeeps(sys, Interrupt);
        RunOne(sys, Interrupt);
        RunConcat(START, log, [Interrupt]);
        ReadDone();
        sys, log := Next(sys, Interrupt), log + [Interrupt];
        completions := completions - 1;
      }
    }

    /** The loader takes a buffer off the free list. */
    method TakeBuffer() returns (n: int)
      requires Valid() && places.hand == [] && places.free != []
      modifies this`headSended, this`places, this`pool
      ensures Valid() && old(pool).free != [] && pool == Take(old(pool))
      ensures places.hand == [n]
    {
      TakeLists(next, headSended, tailSended, headToSend, tailToSend, places);
      TakeContents(filled, places, pool);
      hide Lists, Contents;
      n := headSended;
      headSended := next[headSended];
      places, pool := Taking(places), Take(pool);
    }

    /** `os_memcpy` behind the tail of the loader's buffer. */
    method CopyInto(n: int, chunk: seq<Byte>)
      requires Valid() && places.hand == [n]
      modifies this`filled, this`pool
      ensures Valid() && old(pool).hand.Some? && pool == Fill(old(pool), chunk)
    {
      FillContents(filled, places, pool, chunk);
      hide Lists, Contents;
      filled := filled[n := filled[n] + chunk];
      pool := Fill(pool, chunk);
    }

    /** A buffer with room left goes back to the front of the free list. */
    method ReturnBuffer(n: int)
      requires Valid() && places.hand == [n]
      modifies this`next, this`headSended, this`places, this`pool
      ensures Valid() && old(pool).hand.Some? && pool == PutBack(old(pool)) && places.hand == []
    {
      ReturnLists(next, headSended, tailSended, headToSend, tailToSend, places);
      ReturnContents(filled, places, pool);
      hide Lists, Contents;
      next := next[n := headSended];
      headSended := n;
      places, pool := Returning(places), PutBack(pool);
    }

    /** `sdio_try_to_load`. */
    method TryLoadHead()
      requires Valid() && places.send != [] && !started && |pool.send[0]| <= BUFFER_SIZE
      modifies this`bufPtr, this`datalen, this`started, this`hasRead, this`pool
      ensures Valid() && pool == TryToLoad(old(pool))
    {
      HeadContents(filled, places, pool, next, headToSend);
      hide Lists, Contents;
      if hasRead && headToSend != NULL {
        LoadHead();
      }
    }

    /** The loader's buffer becomes the last one on the send list. */
    method LinkBuffer(n: int)
      requires Valid() && places.hand == [n]
      modifies this`next, this`headToSend, this`tailToSend, this`places, this`pool
      ensures Valid() && places == Queueing(old(places)) && old(pool).hand.Some?
      ensures pool == old(pool).(send := old(pool).send + [old(pool).hand.value], hand := None)
    {
      QueueLists(next, headSended, tailSended, headToSend, tailToSend, places);
      QueueContents(filled, places, pool);
      hide Lists, Contents;
      if headToSend == NULL {
        tailToSend := n;
        headToSend := tailToSend;
      } else {
        next := next[tailToSend := n];
        tailToSend := next[tailToSend];
      }
      next := next[tailToSend := NULL];
      places, pool := Queueing(places), pool.(send := pool.send + [pool.hand.value], hand := None);
    }

    /** A full buffer joins the send list, and is loaded when it is alone there. */
    method QueueBuffer(n: int)
      requires Valid() && places.hand == [n] && Inv(pool) && |pool.hand.value| == BUFFER_SIZE
      modifies this`next, this`headToSend, this`tailToSend, this`places, this`pool
      modifies this`bufPtr, this`datalen, this`started, this`hasRead
      ensures Valid() && pool == Queue(old(pool)) && places.hand == []
    {
      hide Lists, Contents;
      Sizes(next, headSended, tailSended, headToSend, tailToSend, filled, places, pool);
      var empty := headToSend == NULL;
      LinkBuffer(n);
      if empty {
        TryLoadHead();
      }
    }

    /** The check at the end of a call. */
    method FlushPool()
      requires Valid() && Sound(pool) && pool.hand.None?
      modifies this`hasRead, this`started, this`next, this`tailToSend, this`headSended
      modifies this`headToSend, this`places, this`pool, this`bufPtr, this`datalen
      ensures Valid() && pool == Flush(old(pool)) && places.hand == []
    {
      hide Lists, Contents;
      Sizes(next, headSended, tailSended, headToSend, tailToSend, filled, places, pool);
      if headToSend == NULL {
        StartPartial();
      }
    }

    /** One more step of the run is over. */
    ghost method Record(step: Step)
      requires Run(START, log) == Some(sys) && SystemInv(sys) && Enabled(sys, step)
      modifies this`sys, this`log
      ensures Run(START, log) == Some(sys) && SystemInv(sys)
      ensures sys == Next(old(sys), step) && Extends(old(log), log)
    {
      ExtendsSelf(log, step);
      NextKeeps(sys, step);
      RunOne(sys, step);
      RunConcat(START, log, [step]);
      sys, log := Next(sys, step), log + [step];
    }

    /** The loader stands at the top of its loop with interrupts disabled: `dataLen`
        bytes of `data` are taken, and the stretch it is in ends as `LoopHead` says. */
    ghost predicate AtLoopHead(data: seq<Byte>, dataLen: nat, before: seq<Byte>)
      reads this
    {
      && Valid() && Sound(pool) && places.hand == [] && pool.hand.None?
      && Run(START, log) == Some(sys) && SystemInv(sys) && Enabled(sys, Advance)
      && dataLen <= |data|
      && Next(sys, Advance) == LoopHead(System(pool, Entered, data[dataLen..], before + data[..dataLen]))
    }

    /** The loader owns buffer `n`, and no interrupt is pending. */
    ghost predicate Owns(n: int, phase: Phase, rest: seq<Byte>, accepted: seq<Byte>)
      reads this
    {
      && Synced() && SystemInv(sys) && places.hand == [n]
      && sys == System(pool, phase, rest, accepted)
    }

    /** Takes a buffer, and lets interrupts in again. */
    method Grab(data: seq<Byte>, dataLen: nat, ghost before: seq<Byte>) returns (n: int)
      requires AtLoopHead(data, dataLen, before) && dataLen < |data| && places.free != []
      modifies this
      ensures Owns(n, Holding, data[dataLen..], before + data[..dataLen]) && Extends(old(log), log)
      ensures Capacity(pool) >= Capacity(old(pool))
    {
      hide Lists, Contents, Link, Run, Stream, Sound, Complete, Extends, Capacity;
      Sizes(next, headSended, tailSended, headToSend, tailToSend, filled, places, pool);
      TakeCapacity(pool);
      n := TakeBuffer();
      Record(Advance);
      ghost var recorded := log;
      Window();
      ExtendsOn(old(log), recorded, log);
    }

    /** The copying itself, `k` bytes. */
    method CopyBytes(n: int, chunk: seq<Byte>, ghost rest: seq<Byte>, ghost accepted: seq<Byte>)
      requires Owns(n, Holding, rest, accepted) && pool.hand.Some?
      requires |chunk| == Min(|rest|, BUFFER_SIZE - |pool.hand.value|) && chunk == rest[..|chunk|]
      modifies this
      ensures Owns(n, Filled, rest[|chunk|..], accepted + chunk)
      ensures pool == Fill(old(pool), chunk) && Extends(old(log), log)
    {
      hide Lists, Contents, Link, Run, Stream, Sound, Complete, Next, Strands, Extends;
      CopyStep(sys, |chunk|);
      CopyInto(n, chunk);
      Record(Advance);
    }

    /** Copies as much as fits, and lets interrupts in again. */
    method Copy(n: int, data: seq<Byte>, dataLen: nat, ghost before: seq<Byte>) returns (fits: bool, dataLen': nat)
      requires dataLen < |data| && Owns(n, Holding, data[dataLen..], before + data[..dataLen])
      modifies this
      ensures dataLen < dataLen' <= |data| && Owns(n, Filled, data[dataLen'..], before + data[..dataLen'])
      ensures if fits then |pool.hand.value| < BUFFER_SIZE else |pool.hand.value| == BUFFER_SIZE
      ensures Extends(old(log), log) && Capacity(pool) >= Capacity(old(pool)) - (dataLen' - dataLen)
    {
      hide Lists, Contents, Link, Run, Stream, Sound, Complete, Next, Extends, Capacity;
      Sizes(next, headSended, tailSended, headToSend, tailToSend, filled, places, pool);
      var left := BUFFER_SIZE - |filled[n]|;
      fits := |data| - dataLen < left;
      dataLen' := if fits then |data| else dataLen + left;
      Slices(data, dataLen, dataLen' - dataLen, before);
      FillCapacity(pool, data[dataLen..dataLen']);
      CopyBytes(n, data[dataLen..dataLen'], data[dataLen..], before + data[..dataLen]);
      ghost var recorded := log;
      Window();
      ExtendsOn(old(log), recorded, log);
    }

    /** One buffer's worth of the loop. */
    method Round(data: seq<Byte>, dataLen: nat, ghost before: seq<Byte>) returns (dataLen': nat)
      requires AtLoopHead(data, dataLen, before) && dataLen < |data| && places.free != []
      modifies this
      ensures AtLoopHead(data, dataLen', before) && dataLen < dataLen' && Extends(old(log), log)
      ensures dataLen' == |data| || dataLen' + Capacity(pool) >= dataLen + Capacity(old(pool))
    {
      hide Lists, Contents, Link, Run, Stream, Sound, Complete, Extends, Capacity;
      var n := Grab(data, dataLen, before);
      ghost var grabbed := log;
      var fits;
      fits, dataLen' := Copy(n, data, dataLen, before);
      ExtendsOn(old(log), grabbed, log);
      if fits {
        PutBackFlushKeeps(pool);
        ReturnBuffer(n);
      } else {
        QueueKeeps(pool);
        QueueCapacity(pool);
        QueueBuffer(n);
      }
    }

    /** The check at the end of the call is all that is left of it. */
    ghost predicate AtExit(accepted: seq<Byte>)
      reads this
    {
      && Valid() && Sound(pool) && pool.hand.None?
      && Run(START, log) == Some(sys) && SystemInv(sys) && Enabled(sys, Advance)
      && Next(sys, Advance).pool == Flush(pool) && Next(sys, Advance).phase == Idle
      && Next(sys, Advance).accepted == accepted
    }

    /** The call is past its first check. */
    method Begin(data: seq<Byte>)
      requires Synced() && SystemInv(sys) && sys.phase == Idle && places.free != []
      modifies this
      ensures AtLoopHead(data, 0, old(sys.accepted)) && Extends(old(log), log)
      ensures Capacity(pool) >= Capacity(old(pool))
    {
      hide Lists, Contents, Link, Run, Stream, Sound, Complete, Extends, Capacity;
      Sizes(next, headSended, tailSended, headToSend, tailToSend, filled, places, pool);
      Record(Call(data));
      ghost var recorded := log;
      Window();
      ExtendsOn(old(log), recorded, log);
      Sizes(next, headSended, tailSended, headToSend, tailToSend, filled, places, pool);
      assert data[0..] == data && old(sys.accepted) + data[..0] == old(sys.accepted);
    }

    /** "Buffer full": interrupts come back on before the check. */
    method GiveUp(data: seq<Byte>, dataLen: nat, ghost before: seq<Byte>)
      requires AtLoopHead(data, dataLen, before) && dataLen < |data| && pool.free == []
      modifies this
      ensures AtExit(before + data[..dataLen]) && Extends(old(log), log)
    {
      hide Lists, Contents, Link, Run, Stream, Sound, Complete, Extends;
      Record(Advance);
      ghost var recorded := log;
      Window();
      ExtendsOn(old(log), recorded, log);
    }

    method Leave(ghost accepted: seq<Byte>)
      requires AtExit(accepted)
      modifies this
      ensures Synced() && SystemInv(sys) && sys.phase == Idle && sys.accepted == accepted
      ensures Extends(old(log), log)
    {
      hide Lists, Contents, Link, Run, Stream, Sound, Complete, Extends;
      FlushPool();
      Record(Advance);
    }

    /** `sdio_load_data` past its first check. */
    method LoadLoop(data: seq<Byte>) returns (dataLen: nat)
      requires Synced() && SystemInv(sys) && sys.phase == Idle && places.free != []
      modifies this
      ensures Synced() && SystemInv(sys) && sys.phase == Idle && Extends(old(log), log)
      ensures dataLen <= |data| && sys.accepted == old(sys.accepted) + data[..dataLen]
      ensures dataLen == |data| || dataLen >= Capacity(old(pool))
    {
      hide Lists, Contents, Link, Run, Stream, Sound, Complete, Extends, Capacity;
      dataLen := 0;
      ghost var before := sys.accepted;
      Begin(data);
      while dataLen < |data|
        invariant AtLoopHead(data, dataLen, before) && Extends(old(log), log)
        invariant dataLen == |data| || dataLen + Capacity(pool) >= Capacity(old(pool))
      {
        ghost var latest := log;
        Sizes(next, headSended, tailSended, headToSend, tailToSend, filled, places, pool);
        if headSended == NULL {
          CapacityIs(pool);
          GiveUp(data, dataLen, before);
          ExtendsOn(old(log), latest, log);
          break;
        }
        dataLen := Round(data, dataLen, before);
        ExtendsOn(old(log), latest, log);
      }
      ghost var latest := log;
      Leave(before + data[..dataLen]);
      ExtendsOn(old(log), latest, log);
    }

    /**
     `sdio_load_data`. Whatever interrupts come in its windows, the call takes a prefix
     of the data, says how long that is, and adds it to what the host is to see. It takes
     all of the data, or at least as much as there was room for when it began. The
     recorded run goes on from where it was: what happened in this call is a run of the
     step system from the state before it, and nothing the host has read is taken back.
     */
    method LoadData(data: seq<Byte>) returns (dataLen: nat)
      requires Synced() && SystemInv(sys) && sys.phase == Idle
      modifies this
      ensures Synced() && SystemInv(sys) && sys.phase == Idle
      ensures dataLen <= |data| && sys.accepted == old(sys.accepted) + data[..dataLen]
      ensures dataLen >= Min(|data|, Room(old(sys.pool)))
      ensures old(log) <= log && Run(old(sys), log[|old(log)|..]) == Some(sys)
      ensures old(sys.pool.host) <= sys.pool.host
    {
      hide Lists, Contents, Link, Run, Stream, Sound, Complete, Extends, Capacity, Room;
      Sizes(next, headSended, tailSended, headToSend, tailToSend, filled, places, pool);
      CapacityIs(pool);
      ExtendsSelf(log, Advance);
      dataLen := 0;
      if headSended != NULL {
        dataLen := LoadLoop(data);
      } else {
        assert sys.accepted + data[..0] == sys.accepted;
      }
      RunsOn(old(log), log, old(sys), sys);
    }
  }
}
