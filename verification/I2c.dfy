/**
 The bit-banged I2C master: the levels it puts on the two lines, and what an observer of
 the bus makes of them by the rules of UM10204, sections 3.1.3 and 3.1.4.
 */
module I2c {
  import opened Bytes
  import opened Wrappers

  // ---------------------------------------------------------------- the bus

  /** The levels of the two lines; true is high. */
  datatype Line = Line(sda: bool, scl: bool)

  /** What the master drives and whether the slave lets SDA go. SDA is low when either
      pulls it low. */
  datatype Bus = Bus(master: Line, slave: bool)

  /** The master sets both lines; the slave then takes up `slave`. */
  datatype Drive = Drive(sda: bool, scl: bool, slave: bool)

  function After(b: Bus, d: Drive): Bus {
    Bus(Line(d.sda, d.scl), d.slave)
  }

  /** The levels that a setting leads to: first with the slave as it was. */
  function Levels(b: Bus, d: Drive): seq<Line> {
    [Line(d.sda && b.slave, d.scl), Line(d.sda && d.slave, d.scl)]
  }

  function AfterAll(b: Bus, ds: seq<Drive>): Bus
    decreases |ds|
  {
    if ds == [] then b else AfterAll(After(b, ds[0]), ds[1..])
  }

  function Wire(b: Bus, ds: seq<Drive>): seq<Line>
    decreases |ds|
  {
    if ds == [] then [] else Levels(b, ds[0]) + Wire(After(b, ds[0]), ds[1..])
  }

  // ---------------------------------------------------------------- the observer

  datatype Symbol = START | STOP | Bit(value: bool)

  /** `sampled` is the data bit of the current high phase of SCL, unless a START or STOP
      has made it none. */
  datatype Observer = Observer(prev: Line, sampled: Option<bool>)

  datatype Seen = Seen(observer: Observer, symbols: seq<Symbol>)

  /** SDA falling while SCL is high is a START, SDA rising a STOP; a bit is what SDA was
      when SCL rose, if it stayed so until SCL fell. */
  function Look(o: Observer, l: Line): Seen {
    if !o.prev.scl && !l.scl then Seen(Observer(l, None), [])
    else if !o.prev.scl then Seen(Observer(l, Some(l.sda)), [])
    else if !l.scl then Seen(Observer(l, None), if o.sampled.Some? then [Bit(o.sampled.value)] else [])
    else if o.prev.sda == l.sda then Seen(Observer(l, o.sampled), [])
    else Seen(Observer(l, None), if o.prev.sda then [START] else [STOP])
  }

  function Observe(o: Observer, ls: seq<Line>): Seen
    decreases |ls|
  {
    if ls == [] then Seen(o, [])
    else
      var s := Look(o, ls[0]);
      var r := Observe(s.observer, ls[1..]);
      Seen(r.observer, s.symbols + r.symbols)
  }

  lemma {:induction false} ObserveConcat(o: Observer, a: seq<Line>, b: seq<Line>)
    ensures var s := Observe(o, a); var r := Observe(s.observer, b);
      Observe(o, a + b) == Seen(r.observer, s.symbols + r.symbols)
    decreases |a|
  {
    if a == [] {
      assert a + b == b;
    } else {
      assert (a + b)[1..] == a[1..] + b;
      ObserveConcat(Look(o, a[0]).observer, a[1..], b);
    }
  }

  lemma {:induction false} WireConcat(b: Bus, p: seq<Drive>, q: seq<Drive>)
    ensures AfterAll(b, p + q) == AfterAll(AfterAll(b, p), q)
    ensures Wire(b, p + q) == Wire(b, p) + Wire(AfterAll(b, p), q)
    decreases |p|
  {
    if p == [] {
      assert p + q == q;
    } else {
      assert (p + q)[1..] == p[1..] + q;
      WireConcat(After(b, p[0]), p[1..], q);
    }
  }

  /** What the observer makes of these settings. */
  function Watch(o: Observer, b: Bus, ds: seq<Drive>): Seen {
    Observe(o, Wire(b, ds))
  }

  lemma WatchConcat(o: Observer, b: Bus, p: seq<Drive>, q: seq<Drive>)
    ensures var s := Watch(o, b, p); var r := Watch(s.observer, AfterAll(b, p), q);
      Watch(o, b, p + q) == Seen(r.observer, s.symbols + r.symbols)
  {
    WireConcat(b, p, q);
    ObserveConcat(o, Wire(b, p), Wire(AfterAll(b, p), q));
  }

  /** One setting. */
  lemma WatchOne(o: Observer, b: Bus, d: Drive)
    ensures var l := Levels(b, d); var s := Look(o, l[0]); var r := Look(s.observer, l[1]);
      Watch(o, b, [d]) == Seen(r.observer, s.symbols + r.symbols)
    ensures AfterAll(b, [d]) == After(b, d)
  {
    var l := Levels(b, d);
    assert [d][1..] == [];
    assert Wire(b, [d]) == l + Wire(After(b, d), []) == l;
    ObserveTwo(o, l);
  }

  lemma ObserveTwo(o: Observer, l: seq<Line>)
    requires |l| == 2
    ensures var s := Look(o, l[0]); var r := Look(s.observer, l[1]);
      Observe(o, l) == Seen(r.observer, s.symbols + r.symbols)
  {
    hide Look;
    var s := Look(o, l[0]);
    var r := Look(s.observer, l[1]);
    assert l[1..] == [l[1]] && [l[1]][1..] == [];
    assert Observe(s.observer, [l[1]]) == Seen(r.observer, r.symbols + []);
    assert r.symbols + [] == r.symbols;
  }

  // ---------------------------------------------------------------- bytes and bits

  /** The low `n` bits, most significant first. */
  function Bits(v: nat, n: nat): (b: seq<bool>)
    ensures |b| == n
    decreases n
  {
    if n == 0 then [] else Bits(v / 2, n - 1) + [v % 2 == 1]
  }

  function Value(b: seq<bool>): nat {
    if b == [] then 0 else 2 * Value(b[..|b| - 1]) + if b[|b| - 1] then 1 else 0
  }

  lemma {:induction false} ValueOfBits(v: nat, n: nat)
    requires v < Pow2(n)
    ensures Value(Bits(v, n)) == v
    decreases n
  {
    if n > 0 {
      ValueOfBits(v / 2, n - 1);
      assert Bits(v, n)[..n - 1] == Bits(v / 2, n - 1);
    }
  }

  lemma ByteBits(v: Byte)
    ensures Value(Bits(v, 8)) == v
  {
    assert Pow2(4) == 16;
    assert Pow2(8) == 16 * Pow2(4);
    ValueOfBits(v, 8);
  }

  // ---------------------------------------------------------------- the calls

  datatype Call =
    | StartCall
    | StopCall
    | WriteByte(value: Byte)
    | GetAck(level: bool)     // what the slave answers
    | ReadByte(value: Byte)   // what the slave sends
    | SetAck(level: bool)

  function WriteBits(bits: seq<bool>): seq<Drive> {
    if bits == [] then []
    else [Drive(bits[0], false, true), Drive(bits[0], true, true), Drive(bits[0], false, true)] + WriteBits(bits[1..])
  }

  function ReadBits(bits: seq<bool>): seq<Drive> {
    if bits == [] then []
    else [Drive(true, false, bits[0]), Drive(true, true, bits[0])] + ReadBits(bits[1..])
  }

  /** The settings that a call makes, from the last ones. The slave changes SDA only while
      SCL is low. */
  function Program(last: Line, c: Call): seq<Drive> {
    match c
    case StartCall => [Drive(true, last.scl, true), Drive(true, true, true), Drive(false, true, true)]
    case StopCall => [Drive(false, last.scl, true), Drive(false, true, true), Drive(true, true, true)]
    case SetAck(l) =>
      [Drive(last.sda, false, true), Drive(l, false, true), Drive(l, true, true), Drive(l, false, true),
       Drive(true, false, true)]
    case GetAck(a) =>
      [Drive(last.sda, false, true), Drive(true, false, a), Drive(true, true, a), Drive(true, false, true)]
    case WriteByte(v) => [Drive(last.sda, false, true)] + WriteBits(Bits(v, 8))
    case ReadByte(v) => [Drive(last.sda, false, true)] + (ReadBits(Bits(v, 8)) + [Drive(true, false, true)])
  }

  function BitSymbols(bits: seq<bool>): seq<Symbol> {
    if bits == [] then [] else [Bit(bits[0])] + BitSymbols(bits[1..])
  }

  /** What a call is for. */
  function Meaning(c: Call): seq<Symbol> {
    match c
    case StartCall => [START]
    case StopCall => [STOP]
    case SetAck(l) => [Bit(l)]
    case GetAck(a) => [Bit(a)]
    case WriteByte(v) => BitSymbols(Bits(v, 8))
    case ReadByte(v) => BitSymbols(Bits(v, 8))
  }

  /** What it says on the bus: the same, but for a start right after a start and a stop
      while both lines are high, which say one thing more first. */
  function Says(last: Line, c: Call): seq<Symbol> {
    if c == StartCall && last == Line(false, true) then [STOP, START]
    else if c == StopCall && last == Line(true, true) then [START, STOP]
    else Meaning(c)
  }

  /** Between calls the slave has let go and no bit is in the making. */
  predicate Between(o: Observer, b: Bus) {
    b.slave && o.prev == b.master && o.sampled == None
  }

  // ---------------------------------------------------------------- each call says what it should

  /** One more setting in front. */
  lemma WatchCons(o: Observer, b: Bus, d: Drive, rest: seq<Drive>)
    ensures var l := Levels(b, d); var s := Look(o, l[0]); var r := Look(s.observer, l[1]);
      var t := Watch(r.observer, After(b, d), rest);
      Watch(o, b, [d] + rest) == Seen(t.observer, s.symbols + r.symbols + t.symbols)
    ensures AfterAll(b, [d] + rest) == AfterAll(After(b, d), rest)
  {
    hide Look, Levels;
    WatchConcat(o, b, [d], rest);
    WatchOne(o, b, d);
    WireConcat(b, [d], rest);
  }

  lemma WatchNone(o: Observer, b: Bus)
    ensures Watch(o, b, []) == Seen(o, []) && AfterAll(b, []) == b
  {
  }

  /** Watching a setting changes the observer, the bus and what was said. */
  datatype Scene = Scene(o: Observer, b: Bus, said: seq<Symbol>)

  function Show(s: Scene, d: Drive): Scene {
    var l := Levels(s.b, d);
    var x := Look(s.o, l[0]);
    var y := Look(x.observer, l[1]);
    Scene(y.observer, After(s.b, d), s.said + x.symbols + y.symbols)
  }

  function ShowAll(s: Scene, ds: seq<Drive>): Scene
    decreases |ds|
  {
    if ds == [] then s else ShowAll(Show(s, ds[0]), ds[1..])
  }

  /** Scene by scene, or the whole trace at once. */
  lemma {:induction false} ShowIsWatch(s: Scene, ds: seq<Drive>)
    ensures var w := Watch(s.o, s.b, ds);
      ShowAll(s, ds) == Scene(w.observer, AfterAll(s.b, ds), s.said + w.symbols)
    decreases |ds|
  {
    hide Look, Levels;
    if ds == [] {
      WatchNone(s.o, s.b);
      assert s.said + [] == s.said;
    } else {
      assert ds == [ds[0]] + ds[1..];
      WatchCons(s.o, s.b, ds[0], ds[1..]);
      ShowIsWatch(Show(s, ds[0]), ds[1..]);
    }
  }

  lemma {:induction false} ShowConcat(s: Scene, p: seq<Drive>, q: seq<Drive>)
    ensures ShowAll(s, p + q) == ShowAll(ShowAll(s, p), q)
    decreases |p|
  {
    if p == [] {
      assert p + q == q;
    } else {
      assert (p + q)[1..] == p[1..] + q;
      ShowConcat(Show(s, p[0]), p[1..], q);
    }
  }

  predicate AtRest(s: Scene) {
    Between(s.o, s.b)
  }

  lemma {:induction false} WriteBitsSay(s: Scene, bits: seq<bool>)
    requires AtRest(s) && !s.b.master.scl
    ensures var r := ShowAll(s, WriteBits(bits));
      AtRest(r) && !r.b.master.scl && r.said == s.said + BitSymbols(bits)
    decreases |bits|
  {
    if bits == [] {
      assert s.said + [] == s.said;
    } else {
      var x := bits[0];
      var cell := [Drive(x, false, true), Drive(x, true, true), Drive(x, false, true)];
      ShowConcat(s, cell, WriteBits(bits[1..]));
      var r := WriteCell(s, x);
      WriteBitsSay(r, bits[1..]);
      assert s.said + [Bit(x)] + BitSymbols(bits[1..]) == s.said + ([Bit(x)] + BitSymbols(bits[1..]));
    }
  }

  lemma WriteCell(s: Scene, x: bool) returns (r: Scene)
    requires AtRest(s) && !s.b.master.scl
    ensures r == ShowAll(s, [Drive(x, false, true), Drive(x, true, true), Drive(x, false, true)])
    ensures AtRest(r) && !r.b.master.scl && r.said == s.said + [Bit(x)]
  {
    var cell := [Drive(x, false, true), Drive(x, true, true), Drive(x, false, true)];
    r := Show(Show(Show(s, cell[0]), cell[1]), cell[2]);
    ShowThree(s, cell);
  }

  lemma ShowThree(s: Scene, ds: seq<Drive>)
    requires |ds| == 3
    ensures ShowAll(s, ds) == Show(Show(Show(s, ds[0]), ds[1]), ds[2])
  {
    hide Show;
    ShowFirst(s, ds);
    ShowTwo(Show(s, ds[0]), ds[1..]);
  }

  lemma ShowTwo(s: Scene, ds: seq<Drive>)
    requires |ds| == 2
    ensures ShowAll(s, ds) == Show(Show(s, ds[0]), ds[1])
  {
    hide Show;
    assert ds[1..] == [ds[1]] && [ds[1]][1..] == [];
    ShowFirst(s, ds);
    ShowFirst(Show(s, ds[0]), ds[1..]);
  }

  lemma ShowFirst(s: Scene, ds: seq<Drive>)
    requires ds != []
    ensures ShowAll(s, ds) == ShowAll(Show(s, ds[0]), ds[1..])
  {
  }

  /** The bit that is being sampled, if SCL is high. */
  function Making(o: Observer): seq<Symbol> {
    if o.sampled.Some? then [Bit(o.sampled.value)] else []
  }

  /** While reading, SCL is low and the slave has let go, or SCL is high over its bit. */
  predicate Reading(s: Scene) {
    (AtRest(s) && !s.b.master.scl)
    || (s.b.master == Line(true, true) && s.o == Observer(Line(s.b.slave, true), Some(s.b.slave)))
  }

  lemma {:induction false} ReadBitsSay(s: Scene, bits: seq<bool>)
    requires Reading(s)
    ensures var r := ShowAll(s, ReadBits(bits) + [Drive(true, false, true)]);
      AtRest(r) && r.b.master == Line(true, false) && r.said == s.said + Making(s.o) + BitSymbols(bits)
    decreases |bits|
  {
    var last := [Drive(true, false, true)];
    if bits == [] {
      assert ReadBits(bits) + last == last && last[1..] == [];
      assert ShowAll(s, last) == Show(s, last[0]);
    } else {
      var x := bits[0];
      var cell := [Drive(true, false, x), Drive(true, true, x)];
      assert ReadBits(bits) + last == cell + (ReadBits(bits[1..]) + last);
      ShowConcat(s, cell, ReadBits(bits[1..]) + last);
      ShowTwo(s, cell);
      var r := ReadCell(s, x);
      hide Show, ShowAll, Reading, ReadBits, AtRest;
      ReadBitsSay(r, bits[1..]);
    }
  }

  lemma ReadCell(s: Scene, x: bool) returns (r: Scene)
    requires Reading(s)
    ensures r == Show(Show(s, Drive(true, false, x)), Drive(true, true, x))
    ensures Reading(r) && r.said == s.said + Making(s.o) && Making(r.o) == [Bit(x)]
  {
    r := Show(Show(s, Drive(true, false, x)), Drive(true, true, x));
  }

  /** The first setting of most calls takes SCL down with SDA as it was. */
  lemma ClockDown(s: Scene)
    requires AtRest(s)
    ensures var r := Show(s, Drive(s.b.master.sda, false, true));
      AtRest(r) && r.b.master == Line(s.b.master.sda, false) && r.said == s.said
  {
  }

  /** The lines after a call: SCL is high only after a start or a stop. */
  predicate Ends(l: Line, c: Call) {
    match c
    case StartCall => l == Line(false, true)
    case StopCall => l == Line(true, true)
    case _ => !l.scl
  }

  lemma StartStopSay(s: Scene, c: Call)
    requires AtRest(s) && (c == StartCall || c == StopCall)
    ensures var r := ShowAll(s, Program(s.b.master, c));
      AtRest(r) && Ends(r.b.master, c) && r.said == s.said + Says(s.b.master, c)
  {
    var ds := Program(s.b.master, c);
    ShowThree(s, ds);
    hide ShowAll;
    var x := Show(s, ds[0]);
    var y := Show(x, ds[1]);
  }

  /** Any call, whenever it is made, says what it should, and comes to rest. */
  lemma CallSays(s: Scene, c: Call)
    requires AtRest(s)
    ensures var r := ShowAll(s, Program(s.b.master, c));
      AtRest(r) && Ends(r.b.master, c) && r.said == s.said + Says(s.b.master, c)
  {
    if c == StartCall || c == StopCall {
      StartStopSay(s, c);
    } else {
      ClockDown(s);
      ShowFirst(s, Program(s.b.master, c));
      hide ShowAll, Show, AtRest;
      TailSays(Show(s, Drive(s.b.master.sda, false, true)), c);
    }
  }

  /** The rest of a call that is not a start or a stop. */
  lemma TailSays(s: Scene, c: Call)
    requires AtRest(s) && !s.b.master.scl && c != StartCall && c != StopCall
    ensures var r := ShowAll(s, Program(s.b.master, c)[1..]);
      AtRest(r) && Ends(r.b.master, c) && r.said == s.said + Meaning(c)
  {
    hide ShowAll, Show, AtRest, BitSymbols, Bits;
    match c {
      case WriteByte(v) =>
        WriteSays(s, v);
      case ReadByte(v) =>
        ReadSays(s, v);
      case SetAck(l) =>
        SetAckSays(s, l);
      case GetAck(a) =>
        GetAckSays(s, a);
    }
  }

  lemma WriteSays(s: Scene, v: Byte)
    requires AtRest(s) && !s.b.master.scl
    ensures var r := ShowAll(s, Program(s.b.master, WriteByte(v))[1..]);
      AtRest(r) && !r.b.master.scl && r.said == s.said + BitSymbols(Bits(v, 8))
  {
    hide ShowAll, Show;
    assert Program(s.b.master, WriteByte(v))[1..] == WriteBits(Bits(v, 8));
    WriteBitsSay(s, Bits(v, 8));
  }

  lemma ReadSays(s: Scene, v: Byte)
    requires AtRest(s) && !s.b.master.scl
    ensures var r := ShowAll(s, Program(s.b.master, ReadByte(v))[1..]);
      AtRest(r) && !r.b.master.scl && r.said == s.said + BitSymbols(Bits(v, 8))
  {
    hide ShowAll, Show;
    assert Program(s.b.master, ReadByte(v))[1..] == ReadBits(Bits(v, 8)) + [Drive(true, false, true)];
    ReadBitsSay(s, Bits(v, 8));
    assert s.said + Making(s.o) == s.said;
  }

  lemma SetAckSays(s: Scene, l: bool)
    requires AtRest(s) && !s.b.master.scl
    ensures var r := ShowAll(s, Program(s.b.master, SetAck(l))[1..]);
      AtRest(r) && !r.b.master.scl && r.said == s.said + [Bit(l)]
  {
    var cell := [Drive(l, false, true), Drive(l, true, true), Drive(l, false, true)];
    var last := [Drive(true, false, true)];
    var r := WriteCell(s, l);
    assert Program(s.b.master, SetAck(l))[1..] == cell + last;
    ShowConcat(s, cell, last);
    assert last[1..] == [];
    assert ShowAll(r, last) == Show(r, last[0]);
  }

  lemma GetAckSays(s: Scene, a: bool)
    requires AtRest(s) && !s.b.master.scl
    ensures var r := ShowAll(s, Program(s.b.master, GetAck(a))[1..]);
      AtRest(r) && !r.b.master.scl && r.said == s.said + [Bit(a)]
  {
    var ds := Program(s.b.master, GetAck(a))[1..];
    ShowThree(s, ds);
    hide ShowAll;
    var x := Show(s, ds[0]);
    var y := Show(x, ds[1]);
  }

  // ---------------------------------------------------------------- runs of calls

  function DrivesOf(b: Bus, cs: seq<Call>): seq<Drive>
    decreases |cs|
  {
    if cs == [] then []
    else
      var p := Program(b.master, cs[0]);
      p + DrivesOf(AfterAll(b, p), cs[1..])
  }

  function SaysAll(b: Bus, cs: seq<Call>): seq<Symbol>
    decreases |cs|
  {
    if cs == [] then []
    else Says(b.master, cs[0]) + SaysAll(AfterAll(b, Program(b.master, cs[0])), cs[1..])
  }

  function MeaningAll(cs: seq<Call>): seq<Symbol> {
    if cs == [] then [] else Meaning(cs[0]) + MeaningAll(cs[1..])
  }

  /** No start directly after a start, and no stop directly after a stop. */
  predicate Follows(prev: Call, c: Call) {
    !(prev == StartCall && c == StartCall) && !(prev == StopCall && c == StopCall)
  }

  /** Each call may follow the one before it; `prev` comes before the first. On an idle bus
      that is a stop. */
  predicate WellFormed(prev: Call, cs: seq<Call>)
    decreases |cs|
  {
    cs != [] ==> Follows(prev, cs[0]) && WellFormed(cs[0], cs[1..])
  }

  /** What an observer sees of any run of calls. */
  lemma {:induction false} RunSays(s: Scene, cs: seq<Call>)
    requires AtRest(s)
    ensures var r := ShowAll(s, DrivesOf(s.b, cs)); AtRest(r) && r.said == s.said + SaysAll(s.b, cs)
    decreases |cs|
  {
    hide ShowAll, Show, AtRest, Program, Says;
    if cs == [] {
      ShowNothing(s);
    } else {
      var p := Program(s.b.master, cs[0]);
      CallSays(s, cs[0]);
      ShowBus(s, p);
      ShowConcat(s, p, DrivesOf(AfterAll(s.b, p), cs[1..]));
      RunSays(ShowAll(s, p), cs[1..]);
    }
  }

  lemma ShowNothing(s: Scene)
    ensures ShowAll(s, []) == s
  {
  }

  lemma ShowBus(s: Scene, ds: seq<Drive>)
    ensures ShowAll(s, ds).b == AfterAll(s.b, ds)
  {
    ShowIsWatch(s, ds);
  }

  /** A call says just what it means exactly when it may follow the last one. */
  lemma SaysMeaningIff(last: Line, prev: Call, c: Call)
    requires Ends(last, prev)
    ensures Says(last, c) == Meaning(c) <==> Follows(prev, c)
    ensures |Says(last, c)| == |Meaning(c)| + if Follows(prev, c) then 0 else 1
  {
    hide Bits, BitSymbols;
  }

  lemma {:induction false} SaysLonger(b: Bus, prev: Call, cs: seq<Call>)
    requires b.slave && Ends(b.master, prev)
    ensures |SaysAll(b, cs)| >= |MeaningAll(cs)|
    ensures |SaysAll(b, cs)| == |MeaningAll(cs)| <==> WellFormed(prev, cs)
    ensures WellFormed(prev, cs) ==> SaysAll(b, cs) == MeaningAll(cs)
    decreases |cs|
  {
    hide Program, AfterAll, Says, Meaning, Ends, Follows;
    if cs != [] {
      CallEnds(b, cs[0]);
      SaysMeaningIff(b.master, prev, cs[0]);
      SaysLonger(AfterAll(b, Program(b.master, cs[0])), cs[0], cs[1..]);
    }
  }

  /** The observer recovers the calls' starts, stops, bytes and acknowledgements, and nothing
      else, exactly when the calls are well formed after the one that left the bus as it is. */
  lemma ObservedIff(o: Observer, b: Bus, prev: Call, cs: seq<Call>)
    requires Between(o, b) && Ends(b.master, prev)
    ensures Watch(o, b, DrivesOf(b, cs)).symbols == MeaningAll(cs) <==> WellFormed(prev, cs)
  {
    var s := Scene(o, b, []);
    RunSays(s, cs);
    ShowIsWatch(s, DrivesOf(b, cs));
    SaysLonger(b, prev, cs);
    hide Watch, DrivesOf, SaysAll, MeaningAll, WellFormed, ShowAll;
    assert [] + SaysAll(b, cs) == SaysAll(b, cs);
    assert [] + Watch(o, b, DrivesOf(b, cs)).symbols == Watch(o, b, DrivesOf(b, cs)).symbols;
  }

  /** Whatever state the lines are in, some call leaves them so. */
  lemma SomeCallBefore(l: Line) returns (prev: Call)
    ensures Ends(l, prev)
  {
    prev := if !l.scl then SetAck(true) else if l.sda then StopCall else StartCall;
  }

  // ---------------------------------------------------------------- data are stable while SCL is high

  function Changes(prev: Line, ls: seq<Line>): nat
    decreases |ls|
  {
    if ls == [] then 0
    else (if prev.scl && ls[0].scl && prev.sda != ls[0].sda then 1 else 0) + Changes(ls[0], ls[1..])
  }

  function Conditions(ss: seq<Symbol>): nat {
    if ss == [] then 0 else (if ss[0].Bit? then 0 else 1) + Conditions(ss[1..])
  }

  lemma {:induction false} ConditionsConcat(a: seq<Symbol>, b: seq<Symbol>)
    ensures Conditions(a + b) == Conditions(a) + Conditions(b)
  {
    if a == [] {
      assert a + b == b;
    } else {
      assert (a + b)[1..] == a[1..] + b;
      ConditionsConcat(a[1..], b);
    }
  }

  lemma {:induction false} ChangesAreConditions(o: Observer, ls: seq<Line>)
    ensures Changes(o.prev, ls) == Conditions(Observe(o, ls).symbols)
    decreases |ls|
  {
    if ls != [] {
      var s := Look(o, ls[0]);
      ChangesAreConditions(s.observer, ls[1..]);
      ConditionsConcat(s.symbols, Observe(s.observer, ls[1..]).symbols);
      assert s.symbols != [] ==> s.symbols[1..] == [];
    }
  }

  /** SDA changes while SCL is high once for each start and once for each stop, and never
      within a byte or an acknowledgement. */
  lemma StableData(o: Observer, b: Bus, prev: Call, cs: seq<Call>)
    requires Between(o, b) && Ends(b.master, prev) && WellFormed(prev, cs)
    ensures Changes(o.prev, Wire(b, DrivesOf(b, cs))) == Conditions(MeaningAll(cs))
  {
    ObservedIff(o, b, prev, cs);
    ChangesAreConditions(o, Wire(b, DrivesOf(b, cs)));
  }

  // ---------------------------------------------------------------- transactions

  /** One byte of a transaction, written or read, and its acknowledgement. */
  datatype Item = Item(write: bool, value: Byte, ack: bool)

  function ItemCalls(i: Item): seq<Call> {
    if i.write then [WriteByte(i.value), GetAck(i.ack)] else [ReadByte(i.value), SetAck(i.ack)]
  }

  function ItemsCalls(items: seq<Item>): seq<Call> {
    if items == [] then [] else ItemCalls(items[0]) + ItemsCalls(items[1..])
  }

  function Transaction(items: seq<Item>): seq<Call> {
    [StartCall] + ItemsCalls(items) + [StopCall]
  }

  /** What an observer writes down: each byte with its acknowledgement. */
  datatype Octet = Octet(value: nat, ack: bool)

  function BitsIn(ss: seq<Symbol>): (bits: seq<bool>)
    ensures |bits| <= |ss|
  {
    if ss == [] || !ss[0].Bit? then [] else [ss[0].value] + BitsIn(ss[1..])
  }

  function Octets(bits: seq<bool>): seq<Octet> {
    if |bits| < 9 then [] else [Octet(Value(bits[..8]), bits[8])] + Octets(bits[9..])
  }

  /** The octets between a START and a STOP; None when that is not what was seen. */
  function Decode(ss: seq<Symbol>): Option<seq<Octet>> {
    if ss == [] || ss[0] != START then None
    else
      var bits := BitsIn(ss[1..]);
      if ss[1 + |bits|..] == [STOP] && |bits| % 9 == 0 then Some(Octets(bits)) else None
  }

  function ItemsBits(items: seq<Item>): seq<bool> {
    if items == [] then [] else Bits(items[0].value, 8) + [items[0].ack] + ItemsBits(items[1..])
  }

  function OctetsOf(items: seq<Item>): seq<Octet> {
    seq(|items|, i requires 0 <= i < |items| => Octet(items[i].value, items[i].ack))
  }

  lemma {:induction false} MeaningConcat(a: seq<Call>, b: seq<Call>)
    ensures MeaningAll(a + b) == MeaningAll(a) + MeaningAll(b)
  {
    hide Meaning;
    if a == [] {
      assert a + b == b;
    } else {
      assert (a + b)[1..] == a[1..] + b;
      MeaningConcat(a[1..], b);
    }
  }

  lemma {:induction false} BitSymbolsConcat(a: seq<bool>, b: seq<bool>)
    ensures BitSymbols(a + b) == BitSymbols(a) + BitSymbols(b)
  {
    if a == [] {
      assert a + b == b;
    } else {
      assert (a + b)[1..] == a[1..] + b;
      BitSymbolsConcat(a[1..], b);
    }
  }

  lemma ItemMeaning(i: Item)
    ensures MeaningAll(ItemCalls(i)) == BitSymbols(Bits(i.value, 8) + [i.ack])
  {
    hide Bits;
    var cs := ItemCalls(i);
    BitSymbolsConcat(Bits(i.value, 8), [i.ack]);
    assert cs == [cs[0]] + [cs[1]];
    MeaningConcat([cs[0]], [cs[1]]);
    OneCall(cs[0]);
    OneCall(cs[1]);
    assert [i.ack][1..] == [];
    assert BitSymbols([i.ack]) == [Bit(i.ack)] + BitSymbols([]);
  }

  lemma OneCall(c: Call)
    ensures MeaningAll([c]) == Meaning(c)
  {
    assert [c][1..] == [];
    assert MeaningAll([c]) == Meaning(c) + MeaningAll([]);
  }

  lemma {:induction false} ItemsMeaning(items: seq<Item>)
    ensures MeaningAll(ItemsCalls(items)) == BitSymbols(ItemsBits(items))
  {
    hide Bits, ItemCalls, Meaning;
    if items != [] {
      ItemMeaning(items[0]);
      ItemsMeaning(items[1..]);
      MeaningConcat(ItemCalls(items[0]), ItemsCalls(items[1..]));
      BitSymbolsConcat(Bits(items[0].value, 8) + [items[0].ack], ItemsBits(items[1..]));
    }
  }

  lemma {:induction false} OctetsBack(items: seq<Item>)
    ensures Octets(ItemsBits(items)) == OctetsOf(items)
    ensures |ItemsBits(items)| % 9 == 0
  {
    hide Value, Bits;
    if items != [] {
      var bits, v := ItemsBits(items), items[0].value;
      ByteBits(v);
      OctetsBack(items[1..]);
      assert bits == Bits(v, 8) + [items[0].ack] + ItemsBits(items[1..]);
      assert bits[..8] == Bits(v, 8) && bits[8] == items[0].ack && bits[9..] == ItemsBits(items[1..]);
      assert OctetsOf(items) == [Octet(v, items[0].ack)] + OctetsOf(items[1..]);
    }
  }

  lemma {:induction false} BitsInBack(bits: seq<bool>)
    ensures BitsIn(BitSymbols(bits) + [STOP]) == bits && |BitSymbols(bits)| == |bits|
  {
    var ss := BitSymbols(bits) + [STOP];
    if bits != [] {
      assert ss[1..] == BitSymbols(bits[1..]) + [STOP];
      BitsInBack(bits[1..]);
    }
  }

  lemma TransactionMeaning(items: seq<Item>)
    ensures MeaningAll(Transaction(items)) == [START] + (BitSymbols(ItemsBits(items)) + [STOP])
  {
    MeaningConcat([StartCall] + ItemsCalls(items), [StopCall]);
    MeaningConcat([StartCall], ItemsCalls(items));
    ItemsMeaning(items);
    OneCall(StartCall);
    OneCall(StopCall);
  }

  lemma CallEnds(b: Bus, c: Call)
    requires b.slave
    ensures var a := AfterAll(b, Program(b.master, c)); a.slave && Ends(a.master, c)
  {
    var s := Scene(Observer(b.master, None), b, []);
    CallSays(s, c);
    ShowBus(s, Program(b.master, c));
    hide ShowAll, Program, AfterAll;
  }

  predicate OnlyBytes(cs: seq<Call>) {
    StartCall !in cs && StopCall !in cs
  }

  lemma {:induction false} ItemsThenStop(prev: Call, cs: seq<Call>)
    requires prev != StopCall && OnlyBytes(cs)
    ensures WellFormed(prev, cs + [StopCall])
    decreases |cs|
  {
    var all := cs + [StopCall];
    if cs == [] {
      assert all[1..] == [];
    } else {
      assert cs[0] in cs && all[1..] == cs[1..] + [StopCall];
      ItemsThenStop(cs[0], cs[1..]);
    }
  }

  lemma {:induction false} ItemsAreBytes(items: seq<Item>)
    ensures OnlyBytes(ItemsCalls(items))
  {
    if items != [] {
      ItemsAreBytes(items[1..]);
    }
  }

  lemma TransactionWellFormed(prev: Call, items: seq<Item>)
    requires prev != StartCall
    ensures WellFormed(prev, Transaction(items))
  {
    var cs := Transaction(items);
    assert cs[1..] == ItemsCalls(items) + [StopCall];
    ItemsAreBytes(items);
    ItemsThenStop(StartCall, ItemsCalls(items));
  }

  /** From the levels on the bus alone an observer gets back every byte of a transaction,
      written or read, and every acknowledgement. */
  lemma TransactionRoundTrip(o: Observer, b: Bus, items: seq<Item>)
    requires Between(o, b) && b.master != Line(false, true)
    ensures Decode(Watch(o, b, DrivesOf(b, Transaction(items))).symbols) == Some(OctetsOf(items))
  {
    hide Watch, DrivesOf, WellFormed, ItemsBits, Octets, OctetsOf, BitSymbols, Transaction, MeaningAll;
    var prev := SomeCallBefore(b.master);
    TransactionWellFormed(prev, items);
    ObservedIff(o, b, prev, Transaction(items));
    TransactionMeaning(items);
    BitsInBack(ItemsBits(items));
    OctetsBack(items);
    var ss := BitSymbols(ItemsBits(items)) + [STOP];
    assert ([START] + ss)[1..] == ss;
    assert ([START] + ss)[1 + |ItemsBits(items)|..] == [STOP];
  }

  // ---------------------------------------------------------------- the program

  /** `v >> i`. */
  function Shifted(v: nat, i: nat): nat
    decreases i
  {
    if i == 0 then v else Shifted(v / 2, i - 1)
  }

  /** Bit `k` of the bits, most significant first. */
  lemma {:induction false} BitAt(v: nat, n: nat, k: nat)
    requires k < n
    ensures Bits(v, n)[k] == (Shifted(v, n - 1 - k) % 2 == 1)
    decreases n
  {
    if k < n - 1 {
      BitAt(v / 2, n - 1, k);
    }
  }

  lemma {:induction false} WriteBitsSnoc(bits: seq<bool>, x: bool)
    ensures WriteBits(bits + [x])
      == WriteBits(bits) + [Drive(x, false, true), Drive(x, true, true), Drive(x, false, true)]
  {
    if bits == [] {
      assert [x][1..] == [];
      assert WriteBits([x]) == [Drive(x, false, true), Drive(x, true, true), Drive(x, false, true)] + WriteBits([]);
      assert [] + [x] == [x];
    } else {
      assert (bits + [x])[1..] == bits[1..] + [x];
      WriteBitsSnoc(bits[1..], x);
    }
  }

  lemma {:induction false} ReadBitsSnoc(bits: seq<bool>, x: bool)
    ensures ReadBits(bits + [x]) == ReadBits(bits) + [Drive(true, false, x), Drive(true, true, x)]
  {
    if bits == [] {
      assert [x][1..] == [];
      assert ReadBits([x]) == [Drive(true, false, x), Drive(true, true, x)] + ReadBits([]);
      assert [] + [x] == [x];
    } else {
      assert (bits + [x])[1..] == bits[1..] + [x];
      ReadBitsSnoc(bits[1..], x);
    }
  }

  /** One more bit of a byte that is read, at its place. */
  lemma ValueSnoc(bits: seq<bool>, k: nat)
    requires k < |bits| <= 8
    ensures Value(bits[..k + 1]) * Pow2(7 - k) == Value(bits[..k]) * Pow2(8 - k) + (if bits[k] then Pow2(7 - k) else 0)
  {
    var x := Value(bits[..k]);
    assert bits[..k + 1][..k] == bits[..k];
    assert Value(bits[..k + 1]) == 2 * x + if bits[k] then 1 else 0;
    var p := Pow2(7 - k);
    assert Pow2(8 - k) == 2 * p;
    assert (2 * x) * p == x * (2 * p);
    assert (2 * x + 1) * p == (2 * x) * p + p;
  }

  /** `m_nLastSDA`, `m_nLastSCL`, and the settings made so far. What the slave will drive
      is a parameter of the calls that look at SDA. */
  class Master {
    var lastSDA: bool
    var lastSCL: bool
    var slave: bool
    ghost var drives: seq<Drive>

    constructor ()
      ensures lastSDA && lastSCL && slave && drives == []
    {
      lastSDA, lastSCL, slave, drives := true, true, true, [];
    }

    ghost function Last(): Line
      reads this
    {
      Line(lastSDA, lastSCL)
    }

    /** `i2c_master_setDC`. */
    method SetDC(sda: bool, scl: bool, slaveNext: bool)
      requires slaveNext == slave || !scl
      modifies this
      ensures Last() == Line(sda, scl) && slave == slaveNext
      ensures drives == old(drives) + [Drive(sda, scl, slaveNext)]
    {
      lastSDA, lastSCL, slave := sda, scl, slaveNext;
      drives := drives + [Drive(sda, scl, slaveNext)];
    }

    /** `i2c_master_getDC`: the level of the line. */
    method GetDC() returns (level: bool)
      ensures level == (lastSDA && slave)
    {
      level := lastSDA && slave;
    }

    /** `i2c_master_start`. */
    method Start()
      requires slave
      modifies this
      ensures drives == old(drives) + Program(old(Last()), StartCall)
      ensures slave && Last() == Line(false, true)
    {
      SetDC(true, lastSCL, true);
      SetDC(true, true, true);
      SetDC(false, true, true);
    }

    /** `i2c_master_stop`. */
    method Stop()
      requires slave
      modifies this
      ensures drives == old(drives) + Program(old(Last()), StopCall)
      ensures slave && Last() == Line(true, true)
    {
      SetDC(false, lastSCL, true);
      SetDC(false, true, true);
      SetDC(true, true, true);
    }

    /** `i2c_master_setAck`. */
    method SetAckLevel(level: bool)
      requires slave
      modifies this
      ensures drives == old(drives) + Program(old(Last()), SetAck(level))
      ensures slave && Last() == Line(true, false)
    {
      SetDC(lastSDA, false, true);
      SetDC(level, false, true);
      SetDC(level, true, true);
      SetDC(level, false, true);
      SetDC(true, false, true);
    }

    /** `i2c_master_getAck`: the level that the slave drives. */
    method ReceiveAck(answer: bool) returns (level: bool)
      requires slave
      modifies this
      ensures drives == old(drives) + Program(old(Last()), GetAck(answer))
      ensures slave && Last() == Line(true, false) && level == answer
    {
      SetDC(lastSDA, false, true);
      SetDC(true, false, answer);
      SetDC(true, true, answer);
      level := GetDC();
      SetDC(true, false, true);
    }

    /** One round of the loop of `i2c_master_readByte`. */
    method ReadOneBit(x: bool, ghost before: seq<Drive>, ghost bits: seq<bool>) returns (k: bool)
      requires drives == before + ReadBits(bits)
      modifies this
      ensures drives == before + ReadBits(bits + [x])
      ensures k == x == slave && Last() == Line(true, true)
    {
      ReadBitsSnoc(bits, x);
      SetDC(true, false, x);
      SetDC(true, true, x);
      k := GetDC();
    }

    /** `i2c_master_readByte`: the byte that the slave drives, `sent`. */
    method Read(ghost sent: Byte, bits: seq<bool>) returns (value: nat)
      requires slave && bits == Bits(sent, 8)
      modifies this
      ensures drives == old(drives) + Program(old(Last()), ReadByte(sent))
      ensures slave && Last() == Line(true, false) && value == sent
    {
      ByteBits(sent);
      hide Bits, Value, ReadBits;
      ghost var start, first := drives, Drive(lastSDA, false, true);
      value := 0;
      SetDC(lastSDA, false, true);
      NothingRead(drives);
      assert bits[..0] == [];
      for i := 0 to 8
        invariant drives == (start + [first]) + ReadBits(bits[..i])
        invariant value == Value(bits[..i]) * Pow2(8 - i)
      {
        ValueSnoc(bits, i);
        assert bits[..i + 1] == bits[..i] + [bits[i]];
        var k := ReadOneBit(bits[i], start + [first], bits[..i]);
        value := value + if k then Pow2(7 - i) else 0;
      }
      assert bits[..8] == bits && Pow2(0) == 1;
      SetDC(true, false, true);
      Regroup(start, [first], ReadBits(bits), [Drive(true, false, true)]);
    }

    /** One round of the loop of `i2c_master_writeByte`. */
    method WriteOneBit(dat: bool, ghost before: seq<Drive>, ghost bits: seq<bool>)
      requires slave && drives == before + WriteBits(bits)
      modifies this
      ensures slave && Last() == Line(dat, false)
      ensures drives == before + WriteBits(bits + [dat])
    {
      WriteBitsSnoc(bits, dat);
      SetDC(dat, false, true);
      SetDC(dat, true, true);
      SetDC(dat, false, true);
    }

    /** `i2c_master_writeByte`. */
    method Write(data: Byte)
      requires slave
      modifies this
      ensures drives == old(drives) + Program(old(Last()), WriteByte(data))
      ensures slave && !lastSCL
    {
      hide Bits, WriteBits, ReadBits, Shifted;
      ghost var start, first, bits := drives, Drive(lastSDA, false, true), Bits(data, 8);
      SetDC(lastSDA, false, true);
      assert bits[..0] == [];
      NothingRead(drives);
      var i := 7;
      while i >= 0
        invariant -1 <= i <= 7 && slave && !lastSCL
        invariant drives == (start + [first]) + WriteBits(bits[..7 - i])
      {
        ghost var k := 7 - i;
        BitAt(data, 8, k);
        assert bits[..k + 1] == bits[..k] + [bits[k]];
        var dat := Shifted(data, i) % 2 == 1;
        WriteOneBit(dat, start + [first], bits[..k]);
        i := i - 1;
      }
      assert bits[..8] == bits;
      Regroup(start, [first], WriteBits(bits), []);
    }
  }

  lemma NothingRead(ds: seq<Drive>)
    ensures ds == ds + ReadBits([]) == ds + WriteBits([])
    ensures Value([]) == 0
  {
  }

  lemma Regroup(a: seq<Drive>, b: seq<Drive>, c: seq<Drive>, d: seq<Drive>)
    ensures (a + b) + c + d == a + (b + (c + d))
    ensures (a + b) + c == a + (b + c)
  {
  }
}
