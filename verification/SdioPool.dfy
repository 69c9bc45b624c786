/**
 The transmit pool of the SDIO slave driver as a step system over values.

 A pool holds the contents of five buffers: those on the free list ("Sended"),
 the one the loader has taken off it, and those on the send list ("ToSend").
 Each function below is one stretch of code that no interrupt can split; a run
 interleaves the stretches of `sdio_load_data` with the end-of-frame interrupt
 at every point where interrupts are enabled.
 */
module SdioPool {
  import opened Bytes
  import opened Wrappers

  const BUFFER_SIZE := 2048
  const BUFFER_NUM := 5

  datatype Pool = Pool(
    free: seq<seq<Byte>>,
    hand: Option<seq<Byte>>,
    send: seq<seq<Byte>>,
    hasRead: bool,
    inFlight: bool,
    host: seq<Byte>)

  const FRESH_POOL := Pool([[], [], [], [], []], None, [], true, false, [])

  // ---------------------------------------------------------------- atomic stretches

  /** Hands the head of the send list to the hardware. A buffer without bytes is
      not started, although the driver records a load all the same. */
  function Load(p: Pool): Pool
    requires p.send != []
  {
    p.(hasRead := false, inFlight := p.inFlight || p.send[0] != [])
  }

  /** The loader's `sdio_try_to_load`. */
  function TryToLoad(p: Pool): Pool {
    if p.hasRead && p.send != [] then Load(p) else p
  }

  /** The head of the send list has been read: it becomes the last free buffer. */
  function Recycled(p: Pool): Pool
    requires p.send != []
  {
    p.(host := p.host + p.send[0], free := p.free + [[]], send := p.send[1..],
       hasRead := true, inFlight := false)
  }

  /** The end-of-frame interrupt: after that buffer comes the next one to send, or else
      the partly filled one. */
  function Complete(p: Pool): Pool
    requires p.inFlight && p.send != []
  {
    var q := Recycled(p);
    if q.send != [] then Load(q)
    else if q.free[0] != [] then Load(q.(send := [q.free[0]], free := q.free[1..]))
    else q
  }

  /** The loader takes the head of the free list. */
  function Take(p: Pool): Pool
    requires p.free != []
  {
    p.(hand := Some(p.free[0]), free := p.free[1..])
  }

  /** The loader copies bytes behind those already in its buffer. */
  function Fill(p: Pool, chunk: seq<Byte>): Pool
    requires p.hand.Some?
  {
    p.(hand := Some(p.hand.value + chunk))
  }

  /** A buffer with room left goes back to the front of the free list. */
  function PutBack(p: Pool): Pool
    requires p.hand.Some?
  {
    p.(free := [p.hand.value] + p.free, hand := None)
  }

  /** A full buffer joins the send list, and is loaded when the list was empty. */
  function Queue(p: Pool): Pool
    requires p.hand.Some?
  {
    var q := p.(send := p.send + [p.hand.value], hand := None);
    if p.send == [] then TryToLoad(q) else q
  }

  /** The end of a call: with nothing to send, the head of the free list is sent. */
  function Flush(p: Pool): Pool {
    if p.send == [] && p.free != [] then TryToLoad(p.(send := [p.free[0]], free := p.free[1..])) else p
  }

  // ---------------------------------------------------------------- invariants

  function HandSeq(p: Pool): seq<seq<Byte>> {
    if p.hand.Some? then [p.hand.value] else []
  }

  /** Where the buffers are and how full, also between two stretches that no interrupt
      can separate. The clause on `inFlight` says what the hardware is doing: it works
      on the head of the send list unless that is empty. */
  ghost predicate Sound(p: Pool) {
    && |p.free| + |HandSeq(p)| + |p.send| == BUFFER_NUM
    && (p.free != [] ==> |p.free[0]| < BUFFER_SIZE)
    && (p.hand.Some? ==> |p.hand.value| <= BUFFER_SIZE && (p.free != [] ==> p.free[0] == []))
    && (forall i :: 1 <= i < |p.free| ==> p.free[i] == [])
    && (forall i :: 0 <= i < |p.send| ==> |p.send[i]| <= BUFFER_SIZE)
    && (forall i :: 1 <= i < |p.send| ==> p.send[i] != [])
    && (p.hasRead <==> p.send == [])
    && (p.inFlight <==> p.send != [] && p.send[0] != [])
  }

  /** What every state that an interrupt can observe satisfies: no bytes are stranded. */
  ghost predicate Inv(p: Pool) {
    Sound(p) && (p.hand.None? && p.send == [] ==> p.free[0] == [])
  }

  /** The driver waits for a read that the host has not been offered. */
  ghost predicate Stuck(p: Pool) {
    p.send != [] && !p.inFlight
  }

  /** The buffer that is partly filled, wherever it is. */
  function Partial(p: Pool): seq<Byte> {
    if p.hand.Some? then p.hand.value else if p.free != [] then p.free[0] else []
  }

  /** Every byte accepted so far, in the order in which the host is to see it. */
  function Stream(p: Pool): seq<Byte> {
    p.host + Flatten(p.send) + Partial(p)
  }

  lemma FlattenHead(s: seq<seq<Byte>>)
    requires s != []
    ensures Flatten(s) == s[0] + Flatten(s[1..])
  {
  }

  lemma FlattenSingle(piece: seq<Byte>)
    ensures Flatten([piece]) == piece
  {
    assert [piece][1..] == [];
  }

  lemma CompleteKeeps(p: Pool)
    requires Inv(p) && p.inFlight
    ensures Inv(Complete(p))
    ensures Stream(Complete(p)) == Stream(p)
    ensures p.host + p.send[0] == Complete(p).host
  {
    var q := Complete(p);
    FlattenHead(p.send);
    if |p.send| == 1 {
      assert Flatten(p.send[1..]) == [];
      if q.send != [] {
        FlattenSingle(q.send[0]);
      }
    }
  }

  lemma TakeKeeps(p: Pool)
    requires Inv(p) && p.hand.None? && p.free != []
    ensures Stream(Take(p)) == Stream(p)
    ensures Inv(Take(p))
  {
  }

  lemma FillKeeps(p: Pool, chunk: seq<Byte>)
    requires Inv(p) && p.hand.Some? && |p.hand.value + chunk| <= BUFFER_SIZE
    ensures Inv(Fill(p, chunk))
    ensures Stream(Fill(p, chunk)) == Stream(p) + chunk
  {
  }

  /** Giving a partly filled buffer back is followed by `Flush` before interrupts
      come back on; between the two the last clause of `Inv` may fail. */
  lemma PutBackFlushKeeps(p: Pool)
    requires Inv(p) && p.hand.Some? && 0 < |p.hand.value| < BUFFER_SIZE
    ensures Sound(PutBack(p)) && Inv(Flush(PutBack(p)))
    ensures Stream(Flush(PutBack(p))) == Stream(p)
    ensures Stuck(Flush(PutBack(p))) <==> Stuck(p)
  {
    var b := PutBack(p);
    assert b.free[1..] == p.free;
    if p.send == [] {
      FlattenSingle(b.free[0]);
    }
  }

  lemma QueueKeeps(p: Pool)
    requires Inv(p) && p.hand.Some? && |p.hand.value| == BUFFER_SIZE
    ensures Inv(Queue(p))
    ensures Stream(Queue(p)) == Stream(p)
    ensures Stuck(Queue(p)) <==> Stuck(p)
    ensures Queue(p).send != []
  {
    FlattenSnoc(p.send, p.hand.value);
  }

  /** With an empty send list, the check at the end of a call loads a buffer without
      bytes: the one way into a stuck pool. */
  lemma FlushKeeps(p: Pool)
    requires Inv(p) && p.hand.None?
    ensures Inv(Flush(p))
    ensures Stream(Flush(p)) == Stream(p)
    ensures Stuck(Flush(p)) <==> Stuck(p) || p.send == []
  {
    if p.send == [] {
      FlattenSingle(p.free[0]);
    }
  }

  // ---------------------------------------------------------------- how much a call can take

  /** The bytes that the free list has room for. */
  function Room(p: Pool): int {
    if p.free == [] then 0 else 2048 * |p.free| - |p.free[0]|
  }

  /** And what the loader's own buffer has room for. */
  function Capacity(p: Pool): int {
    Room(p) + if p.hand.Some? then 2048 - |p.hand.value| else 0
  }

  lemma CapacityIs(p: Pool)
    ensures p.hand.None? ==> Capacity(p) == Room(p)
    ensures p.free == [] ==> Room(p) == 0
  {
  }

  /** A completed read never takes room away from the loader. */
  lemma CompleteCapacity(p: Pool)
    requires Inv(p) && p.inFlight
    ensures Capacity(Complete(p)) >= Capacity(p)
  {
  }

  lemma TakeCapacity(p: Pool)
    requires Sound(p) && p.hand.None? && p.free != []
    ensures Capacity(Take(p)) == Capacity(p)
  {
  }

  /** Copying uses up just as much room as there are bytes. */
  lemma FillCapacity(p: Pool, chunk: seq<Byte>)
    requires p.hand.Some?
    ensures Capacity(Fill(p, chunk)) == Capacity(p) - |chunk|
  {
  }

  lemma QueueCapacity(p: Pool)
    requires p.hand.Some? && |p.hand.value| == BUFFER_SIZE
    ensures Capacity(Queue(p)) == Capacity(p)
  {
  }

  // ---------------------------------------------------------------- calls and interrupts

  /** Where the loader is, as far as an interrupt can observe it. */
  datatype Phase =
    | Idle      // no call is active
    | Entered   // past the first check, interrupts still enabled
    | Holding   // owns a buffer, nothing copied yet
    | Filled    // owns a buffer, bytes copied
    | Leaving   // found no free buffer and enabled interrupts again

  /** `rest` is what the active call has not accepted yet; `accepted` is the
      concatenation of all the prefixes that calls have taken. */
  datatype System = System(pool: Pool, phase: Phase, rest: seq<Byte>, accepted: seq<Byte>)

  datatype Step = Interrupt | Call(data: seq<Byte>) | Advance

  const START := System(FRESH_POOL, Idle, [], [])

  predicate Enabled(s: System, step: Step) {
    match step
    case Interrupt => s.pool.inFlight && s.pool.send != []
    case Call(_) => s.phase == Idle
    case Advance => s.phase != Idle && (s.phase in {Holding, Filled} ==> s.pool.hand.Some?)
  }

  /** The loop head with interrupts disabled: leave, give up, or take a buffer. */
  function LoopHead(s: System): System {
    if s.rest == [] then s.(pool := Flush(s.pool), phase := Idle)
    else if s.pool.free == [] then s.(phase := Leaving)
    else s.(pool := Take(s.pool), phase := Holding)
  }

  function Next(s: System, step: Step): System
    requires Enabled(s, step)
  {
    match step
    case Interrupt => s.(pool := Complete(s.pool))
    case Call(data) => if s.pool.free == [] then s else s.(phase := Entered, rest := data)
    case Advance =>
      match s.phase
      case Entered => LoopHead(s)
      case Holding =>
        var n := Min(|s.rest|, Max(0, BUFFER_SIZE - |s.pool.hand.value|));
        s.(pool := Fill(s.pool, s.rest[..n]), phase := Filled, rest := s.rest[n..],
           accepted := s.accepted + s.rest[..n])
      case Filled =>
        if |s.pool.hand.value| < BUFFER_SIZE then s.(pool := Flush(PutBack(s.pool)), phase := Idle)
        else LoopHead(s.(pool := Queue(s.pool)))
      case Leaving => s.(pool := Flush(s.pool), phase := Idle)
      case Idle => s
  }

  function Run(s: System, steps: seq<Step>): Option<System>
    decreases |steps|
  {
    if steps == [] then Some(s)
    else if Enabled(s, steps[0]) then Run(Next(s, steps[0]), steps[1..])
    else None
  }

  ghost predicate SystemInv(s: System) {
    && Inv(s.pool)
    && Stream(s.pool) == s.accepted
    && (s.pool.hand.Some? <==> s.phase in {Holding, Filled})
    && (s.phase == Holding ==> s.rest != [] && |s.pool.hand.value| < BUFFER_SIZE)
    && (s.phase == Filled ==> 0 < |s.pool.hand.value| && (|s.pool.hand.value| < BUFFER_SIZE ==> s.rest == []))
  }

  lemma LoopHeadKeeps(s: System)
    requires Inv(s.pool) && Stream(s.pool) == s.accepted && s.pool.hand.None?
    ensures SystemInv(LoopHead(s))
    ensures s.rest != [] || s.pool.send != [] ==> (Stuck(LoopHead(s).pool) <==> Stuck(s.pool))
  {
    if s.rest == [] {
      FlushKeeps(s.pool);
    } else if s.pool.free != [] {
      TakeKeeps(s.pool);
    }
  }

  /** The two moves that can leave the pool stuck: a call with no bytes, and the check
      after "buffer full" once every buffer has been read in the meantime. Both find
      the send list empty. */
  predicate Strands(s: System, step: Step) {
    && step == Advance
    && s.pool.send == []
    && (s.phase == Leaving || (s.phase == Entered && s.rest == []))
  }

  lemma AdvanceKeeps(s: System)
    requires SystemInv(s) && Enabled(s, Advance)
    ensures SystemInv(Next(s, Advance))
    ensures Stuck(Next(s, Advance).pool) <==> Stuck(s.pool) || Strands(s, Advance)
  {
    match s.phase {
      case Entered =>
        LoopHeadKeeps(s);
        if s.rest == [] {
          FlushKeeps(s.pool);
        }
      case Holding =>
        CopyKeeps(s);
      case Filled =>
        ReleaseKeeps(s);
      case Leaving =>
        FlushKeeps(s.pool);
      case Idle =>
    }
  }

  lemma CopyKeeps(s: System)
    requires SystemInv(s) && s.phase == Holding
    ensures SystemInv(Next(s, Advance))
    ensures Stuck(Next(s, Advance).pool) <==> Stuck(s.pool)
  {
    var n := Min(|s.rest|, BUFFER_SIZE - |s.pool.hand.value|);
    FillKeeps(s.pool, s.rest[..n]);
  }

  lemma ReleaseKeeps(s: System)
    requires SystemInv(s) && s.phase == Filled
    ensures SystemInv(Next(s, Advance))
    ensures Stuck(Next(s, Advance).pool) <==> Stuck(s.pool)
  {
    if |s.pool.hand.value| < BUFFER_SIZE {
      PutBackFlushKeeps(s.pool);
    } else {
      QueueKeeps(s.pool);
      LoopHeadKeeps(s.(pool := Queue(s.pool)));
    }
  }

  /** One step keeps the invariant, and leaves the pool stuck exactly when it was stuck
      before or the step strands it. */
  lemma NextKeeps(s: System, step: Step)
    requires SystemInv(s) && Enabled(s, step)
    ensures SystemInv(Next(s, step))
    ensures Stuck(Next(s, step).pool) <==> Stuck(s.pool) || Strands(s, step)
  {
    match step
    case Interrupt => CompleteKeeps(s.pool);
    case Call(data) =>
    case Advance => AdvanceKeeps(s);
  }

  // ---------------------------------------------------------------- whole runs

  /** Some step of the run strands the pool. */
  ghost predicate RunStrands(s: System, steps: seq<Step>)
    decreases |steps|
  {
    && steps != []
    && Enabled(s, steps[0])
    && (Strands(s, steps[0]) || RunStrands(Next(s, steps[0]), steps[1..]))
  }

  lemma {:induction false} RunKeeps(s: System, steps: seq<Step>)
    requires SystemInv(s) && Run(s, steps).Some?
    ensures SystemInv(Run(s, steps).value)
    ensures Stuck(Run(s, steps).value.pool) <==> Stuck(s.pool) || RunStrands(s, steps)
    decreases |steps|
  {
    if steps != [] {
      NextKeeps(s, steps[0]);
      RunKeeps(Next(s, steps[0]), steps[1..]);
    }
  }

  /**
   Nothing is lost, duplicated or reordered, whatever the interleaving: what the host
   has read, then the send list, then the partly filled buffer are the accepted bytes.
   The five buffers stay accounted for, and with no call active an empty send list
   means that the host has everything.
   */
  lemma Conservation(steps: seq<Step>)
    requires Run(START, steps).Some?
    ensures var s := Run(START, steps).value;
      && s.pool.host + Flatten(s.pool.send) + Partial(s.pool) == s.accepted
      && |s.pool.free| + |HandSeq(s.pool)| + |s.pool.send| == BUFFER_NUM
      && (s.pool.hasRead <==> s.pool.send == [])
      && (s.phase == Idle && s.pool.send == [] ==> s.pool.host == s.accepted)
  {
    assert Stream(FRESH_POOL) == [];
    RunKeeps(START, steps);
  }

  /** A run leaves the driver waiting for a read that was never offered exactly when
      one of its steps strands the pool. */
  lemma StuckIffStranded(steps: seq<Step>)
    requires Run(START, steps).Some?
    ensures Stuck(Run(START, steps).value.pool) <==> RunStrands(START, steps)
  {
    assert Stream(FRESH_POOL) == [];
    RunKeeps(START, steps);
  }

  /** A stuck pool stays stuck, and the host never gets another byte. */
  lemma {:induction false} StuckForever(s: System, steps: seq<Step>)
    requires SystemInv(s) && Stuck(s.pool) && Run(s, steps).Some?
    ensures Stuck(Run(s, steps).value.pool)
    ensures Run(s, steps).value.pool.host == s.pool.host
    decreases |steps|
  {
    if steps != [] {
      NextKeeps(s, steps[0]);
      StuckForever(Next(s, steps[0]), steps[1..]);
    }
  }

  /** A call with no bytes on an idle pool strands it at once. */
  lemma EmptyCallStrands()
    ensures Run(START, [Call([]), Advance]).Some?
    ensures Stuck(Run(START, [Call([]), Advance]).value.pool)
  {
    var s1 := Next(START, Call([]));
    var s2 := Next(s1, Advance);
    assert [Call([]), Advance][1..] == [Advance];
    assert [Advance][1..] == [];
    assert Run(s1, [Advance]) == Run(s2, []);
    assert s2.pool.send == [[]];
  }

  // ---------------------------------------------------------------- draining

  function Repeat(step: Step, n: nat): seq<Step> {
    seq(n, _ => step)
  }

  /** `n` reads by the host empty the pool. */
  ghost predicate EmptiedBy(s: System, n: nat) {
    var end := Run(s, Repeat(Interrupt, n));
    end.Some? && end.value.pool.send == [] && end.value.pool.host == s.accepted
    && end.value.phase == s.phase && SystemInv(end.value)
  }

  /** The buffers the host still has to read: those on the send list and, if it holds
      any bytes, the partly filled one. */
  function Waiting(p: Pool): nat {
    |p.send| + if Partial(p) == [] then 0 else 1
  }

  /** Unless it is stuck, a pool whose loader holds no buffer hands everything over:
      one read for each waiting buffer, and the host has seen every accepted byte. */
  lemma {:induction false} Drains(s: System)
    requires SystemInv(s) && s.pool.hand.None? && !Stuck(s.pool)
    ensures EmptiedBy(s, Waiting(s.pool))
    decreases Waiting(s.pool)
  {
    if s.pool.send != [] {
      var t := Next(s, Interrupt);
      NextKeeps(s, Interrupt);
      Drains(t);
      var n := Waiting(t.pool);
      assert Repeat(Interrupt, n + 1)[1..] == Repeat(Interrupt, n);
    }
  }

  lemma {:induction false} RunConcat(s: System, a: seq<Step>, b: seq<Step>)
    requires Run(s, a).Some?
    ensures Run(s, a + b) == Run(Run(s, a).value, b)
    decreases |a|
  {
    if a == [] {
      assert a + b == b;
    } else {
      assert (a + b)[1..] == a[1..] + b;
      RunConcat(Next(s, a[0]), a[1..], b);
    }
  }

  /** This run goes on from that one. */
  ghost predicate Extends(before: seq<Step>, after: seq<Step>) {
    before <= after
  }

  lemma ExtendsSelf(a: seq<Step>, step: Step)
    ensures Extends(a, a) && Extends(a, a + [step])
  {
  }

  lemma ExtendsOn(a: seq<Step>, b: seq<Step>, c: seq<Step>)
    requires Extends(a, b) && Extends(b, c)
    ensures Extends(a, c)
  {
  }

  lemma NextGrows(s: System, step: Step)
    requires Enabled(s, step)
    ensures s.pool.host <= Next(s, step).pool.host && s.accepted <= Next(s, step).accepted
  {
  }

  /** What the host has read, and what was accepted, is never taken back. */
  lemma {:induction false} RunGrows(s: System, steps: seq<Step>)
    requires Run(s, steps).Some?
    ensures var t := Run(s, steps).value; s.pool.host <= t.pool.host && s.accepted <= t.accepted
    decreases |steps|
  {
    if steps != [] {
      NextGrows(s, steps[0]);
      hide Next;
      RunGrows(Next(s, steps[0]), steps[1..]);
    }
  }

  /** The later part of a run is a run from where the earlier part led. */
  lemma RunsOn(before: seq<Step>, after: seq<Step>, s: System, t: System)
    requires Extends(before, after) && Run(START, before) == Some(s) && Run(START, after) == Some(t)
    ensures before <= after && Run(s, after[|before|..]) == Some(t)
    ensures s.pool.host <= t.pool.host && s.accepted <= t.accepted
  {
    assert before + after[|before|..] == after;
    RunConcat(START, before, after[|before|..]);
    RunGrows(s, after[|before|..]);
  }

  /** Enough bytes take a loader that holds an empty buffer through all the others to
      the "buffer full" exit. */
  lemma {:induction false} FillsUp(s: System) returns (n: nat)
    requires SystemInv(s) && !Stuck(s.pool) && s.phase == Holding && s.pool.hand.value == []
    requires |s.rest| > (|s.pool.free| + 1) * BUFFER_SIZE
    ensures Run(s, Repeat(Advance, n)).Some?
    ensures var end := Run(s, Repeat(Advance, n)).value;
      end.phase == Leaving && SystemInv(end) && !Stuck(end.pool)
    decreases |s.pool.free|
  {
    var t := Next(s, Advance);
    NextKeeps(s, Advance);
    var u := Next(t, Advance);
    NextKeeps(t, Advance);
    if s.pool.free == [] {
      n := 2;
      assert Repeat(Advance, 1)[1..] == Repeat(Advance, 0);
      assert Run(u, Repeat(Advance, 0)) == Some(u);
    } else {
      var m := FillsUp(u);
      n := m + 2;
      assert Repeat(Advance, n - 1)[1..] == Repeat(Advance, m);
    }
    assert Repeat(Advance, n)[1..] == Repeat(Advance, n - 1);
    assert Run(s, Repeat(Advance, n)) == Run(t, Repeat(Advance, n - 1));
  }

  lemma BeginCall(data: seq<Byte>) returns (s: System)
    requires data != []
    ensures Run(START, [Call(data), Advance]) == Some(s)
    ensures SystemInv(s) && !Stuck(s.pool) && s.phase == Holding && s.pool.hand.value == []
    ensures s.rest == data && |s.pool.free| == BUFFER_NUM - 1
  {
    assert Stream(FRESH_POOL) == [];
    var s1 := Next(START, Call(data));
    NextKeeps(START, Call(data));
    s := Next(s1, Advance);
    NextKeeps(s1, Advance);
    assert [Call(data), Advance][1..] == [Advance];
    RunOne(s1, Advance);
  }

  lemma RunOne(s: System, step: Step)
    requires Enabled(s, step)
    ensures Run(s, [step]) == Some(Next(s, step))
  {
    assert [step][1..] == [];
  }

  /** The window after "buffer full" does strand the pool: a call with more bytes than
      the five buffers hold, then reads of all of them, then the unlocked check. */
  lemma FullWindowStrands(data: seq<Byte>) returns (steps: seq<Step>)
    requires |data| > BUFFER_NUM * BUFFER_SIZE
    ensures Run(START, steps).Some? && Stuck(Run(START, steps).value.pool)
    ensures Call([]) !in steps
  {
    hide Sound, Next, Stream;
    var begin := [Call(data), Advance];
    var held := BeginCall(data);
    var m := FillsUp(held);
    var full := Run(held, Repeat(Advance, m)).value;
    var drain := Repeat(Interrupt, Waiting(full.pool));
    Drains(full);
    var emptied := Run(full, drain).value;
    NextKeeps(emptied, Advance);
    RunOne(emptied, Advance);

    RunConcat(START, begin, Repeat(Advance, m));
    RunConcat(START, begin + Repeat(Advance, m), drain);
    RunConcat(START, begin + Repeat(Advance, m) + drain, [Advance]);
    steps := begin + Repeat(Advance, m) + drain + [Advance];
  }
}
