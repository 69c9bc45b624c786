/**
 The configuration store: two banks and a selector, each in a flash sector of its own.
 Erasing a sector sets bits, writing clears bits, and power may fail during any
 operation, which then has set or cleared only some of its bits.
 */
module ConfigStore {

  function Zeros(): (s: seq<bv8>)
    ensures |s| == 4096
  {
    seq(4096, _ => 0)
  }

  type Sector = s: seq<bv8> | |s| == 4096 witness Zeros()

  const BANK0 := 0
  const BANK1 := 1
  const SELECTOR := 3
  const CONFIG_SIZE := 308

  /** A configuration as the bytes of SYSCFG; the first four are `cfg_holder`. */
  type SysCfg = c: seq<bv8> | |c| == CONFIG_SIZE witness Zeros()[..308]

  /** The four sectors from CFG_LOCATION on. */
  type Image = f: seq<Sector> | |f| == 4 witness [Zeros(), Zeros(), Zeros(), Zeros()]

  // ---------------------------------------------------------------- flash operations

  datatype Op = Erase(sec: nat) | Write(sec: nat, data: seq<bv8>)

  predicate Fits(op: Op) {
    op.sec < 4 && (op.Write? ==> |op.data| <= 4096)
  }

  /** What an operation leaves of one byte. Bits of `mask` are those that an interrupted
      operation got done, when erasing, or left undone, when writing. */
  function ByteAfter(b: bv8, op: Op, i: nat, mask: bv8): bv8 {
    match op
    case Erase(_) => b | mask
    case Write(_, data) => if i < |data| then b & (data[i] | mask) else b
  }

  /** The mask of an operation that runs to its end. */
  function DoneMask(op: Op): bv8 {
    if op.Erase? then 0xFF else 0
  }

  function Done(f: Image, op: Op): Image
    requires Fits(op)
  {
    f[op.sec := seq(4096, i requires 0 <= i < 4096 => ByteAfter(f[op.sec][i], op, i, DoneMask(op)))]
  }

  function Torn(f: Image, op: Op, masks: Sector): Image
    requires Fits(op)
  {
    f[op.sec := seq(4096, i requires 0 <= i < 4096 => ByteAfter(f[op.sec][i], op, i, masks[i]))]
  }

  /** The masks reach every outcome of an interrupted erase, and no other: some bits more
      are set. */
  lemma TornEraseIff(b: bv8, c: bv8)
    ensures (exists m: bv8 :: c == ByteAfter(b, Erase(0), 0, m)) <==> b & c == b
  {
    if b & c == b {
      assert c == ByteAfter(b, Erase(0), 0, c);
    }
  }

  /** The same for a write of `d`: some of the bits that `d` clears are cleared. */
  lemma TornWriteIff(b: bv8, d: bv8, c: bv8)
    ensures (exists m: bv8 :: c == ByteAfter(b, Write(0, [d]), 0, m)) <==> b & c == c && b & d & c == b & d
  {
    if b & c == c && b & d & c == b & d {
      assert c == ByteAfter(b, Write(0, [d]), 0, c);
    }
  }

  /** Flash with a supply that lasts for `power` more operations and then fails during one. */
  datatype Machine = Machine(image: Image, power: nat, on: bool, masks: Sector)

  function Perform(m: Machine, op: Op): Machine
    requires Fits(op)
  {
    if !m.on then m
    else if m.power > 0 then m.(image := Done(m.image, op), power := m.power - 1)
    else m.(image := Torn(m.image, op, m.masks), on := false)
  }

  // ---------------------------------------------------------------- saving and loading

  predicate PicksBank0(f: Image) {
    f[SELECTOR][0] == 0
  }

  /** The bank that a load reads. */
  function Selected(f: Image): SysCfg {
    f[if PicksBank0(f) then BANK0 else BANK1][..CONFIG_SIZE]
  }

  /** The selector's three padding bytes are written back as they were read. */
  function FlagBytes(f: Image, flag: bv8): (b: seq<bv8>)
    ensures |b| == 4
  {
    [flag] + f[SELECTOR][1..4]
  }

  /** `CFG_Save`: erase and write the bank that is not selected, then the selector. */
  function Save(m: Machine, cfg: SysCfg): Machine {
    var bank := if PicksBank0(m.image) then BANK1 else BANK0;
    var flag: bv8 := if PicksBank0(m.image) then 1 else 0;
    var m1 := Perform(m, Erase(bank));
    var m2 := Perform(m1, Write(bank, cfg));
    var m3 := Perform(m2, Erase(SELECTOR));
    Perform(m3, Write(SELECTOR, FlagBytes(m.image, flag)))
  }

  /** The selector changes sides in the third or the fourth operation, depending on which
      way it goes: the first bit set commits to bank 1, the last bit cleared to bank 0. */
  predicate Commits(m: Machine) {
    m.power >= 4
    || (PicksBank0(m.image) && (m.power == 3 || (m.power == 2 && m.masks[0] != 0)))
    || (!PicksBank0(m.image) && m.power == 3 && m.masks[0] == 0)
  }

  /** A save never touches the bank that a load would have read before it. */
  lemma SparesSelectedBank(m: Machine, cfg: SysCfg)
    ensures var bank := if PicksBank0(m.image) then BANK0 else BANK1;
      Save(m, cfg).image[bank] == m.image[bank]
  {
  }

  /** By the time the selector can change sides, the other bank holds the configuration. */
  lemma OtherBankReady(m: Machine, cfg: SysCfg)
    requires m.on && m.power >= 2
    ensures var bank := if PicksBank0(m.image) then BANK1 else BANK0;
      Save(m, cfg).image[bank][..CONFIG_SIZE] == cfg
  {
  }

  lemma SelectorSwitches(m: Machine, cfg: SysCfg)
    requires m.on
    ensures PicksBank0(Save(m, cfg).image) != PicksBank0(m.image) <==> Commits(m)
    ensures Save(m, cfg).on <==> m.power >= 4
  {
  }

  /**
   A save that loses power at any point, in the middle of any erase or write, leaves
   either the old or the new configuration selected, whole, and which of them depends on
   the selector alone; one that does not lose power leaves the new one.
   */
  lemma SaveIsAtomic(m: Machine, cfg: SysCfg)
    requires m.on
    ensures var r := Save(m, cfg);
      && Selected(r.image) == (if Commits(m) then cfg else Selected(m.image))
      && (r.on <==> m.power >= 4) && (r.on ==> Selected(r.image) == cfg)
  {
    hide Save;
    SparesSelectedBank(m, cfg);
    SelectorSwitches(m, cfg);
    if Commits(m) {
      OtherBankReady(m, cfg);
    }
  }

  // ---------------------------------------------------------------- runs of saves, loads and power failures

  /** CFG_HOLDER, least significant byte first. */
  predicate Marked(c: SysCfg) {
    c[..4] == [0xA4, 0x55, 0xFF, 0x00]
  }

  type Defaults = c: SysCfg | Marked(c) witness [0xA4, 0x55, 0xFF, 0x00] + Zeros()[..304]

  /** `CFG_Load`: a configuration without the mark is replaced by the defaults. */
  function Load(m: Machine, defaults: Defaults): Machine {
    if !m.on || Marked(Selected(m.image)) then m else Save(m, defaults)
  }

  /** The first power-up of erased flash stores the defaults in bank 0. */
  lemma VirginFlash(m: Machine, defaults: Defaults)
    requires m.on && m.power >= 4 && forall s, i | 0 <= s < 4 && 0 <= i < 4096 :: m.image[s][i] == 0xFF
    ensures var r := Load(m, defaults);
      && r.image[0][..308] == defaults && r.image[3][0] == 0 && Selected(r.image) == defaults
      && defaults[0] == 0xA4 && defaults[1] == 0x55 && defaults[2] == 0xFF && defaults[3] == 0x00
  {
    hide Save;
    assert Selected(m.image)[0] == 0xFF && Selected(m.image)[..4][0] == 0xFF;
    assert !PicksBank0(m.image);
    SaveIsAtomic(m, defaults);
    SelectorSwitches(m, defaults);
    assert defaults[..4][0] == defaults[0] && defaults[..4][1] == defaults[1];
    assert defaults[..4][2] == defaults[2] && defaults[..4][3] == defaults[3];
  }

  datatype Call =
    | PowerUp(power: nat, masks: Sector)  // how long power lasts, and what the last operation manages
    | SaveCall(cfg: SysCfg)
    | LoadCall(defaults: Defaults)

  function Make(m: Machine, c: Call): Machine {
    match c
    case PowerUp(power, masks) => m.(power := power, masks := masks, on := true)
    case SaveCall(cfg) => Save(m, cfg)
    case LoadCall(defaults) => Load(m, defaults)
  }

  function MakeAll(m: Machine, calls: seq<Call>): Machine {
    if calls == [] then m else Make(MakeAll(m, calls[..|calls| - 1]), calls[|calls| - 1])
  }

  /** Storing `cfg` as one indivisible step would allow these to be current afterwards,
      when power is on before it and on or off after it. */
  function Store(current: set<SysCfg>, cfg: SysCfg, before: bool, after: bool): set<SysCfg> {
    if !before then current else if after then {cfg} else current + {cfg}
  }

  /** What may be current after these calls: the latest configuration whose saving was not
      cut short, and those since then whose saving was. */
  function Possible(m: Machine, calls: seq<Call>): set<SysCfg> {
    if calls == [] then {Selected(m.image)}
    else
      var n := |calls| - 1;
      var before, after := MakeAll(m, calls[..n]), MakeAll(m, calls);
      var current := Possible(m, calls[..n]);
      match calls[n]
      case PowerUp(_, _) => current
      case SaveCall(cfg) => Store(current, cfg, before.on, after.on)
      case LoadCall(d) =>
        if Marked(Selected(before.image)) then current else Store(current, d, before.on, after.on)
  }

  lemma DeadSave(m: Machine, cfg: SysCfg)
    requires !m.on
    ensures Save(m, cfg) == m
  {
  }

  /** Over any number of saves, loads and power failures at any points, a load finds a
      configuration that was passed to a save, whole: the latest that was saved to the
      end, or one whose saving was cut short after that. */
  lemma {:induction false} SurvivesPowerLoss(m: Machine, calls: seq<Call>)
    ensures Selected(MakeAll(m, calls).image) in Possible(m, calls)
  {
    if calls != [] {
      var n := |calls| - 1;
      SurvivesPowerLoss(m, calls[..n]);
      var b := MakeAll(m, calls[..n]);
      var cfg := match calls[n] case SaveCall(c) => c case LoadCall(d) => d case _ => Selected(m.image);
      if b.on {
        SaveIsAtomic(b, cfg);
      } else {
        DeadSave(b, cfg);
      }
      hide Save, Selected;
    }
  }

  /** Once a marked configuration is current, and as long as only marked ones are saved,
      no load ever falls back to the defaults, whatever happens to the power. */
  lemma {:induction false} NeverResets(m: Machine, calls: seq<Call>)
    requires Marked(Selected(m.image))
    requires forall i | 0 <= i < |calls| :: calls[i].SaveCall? ==> Marked(calls[i].cfg)
    ensures Marked(Selected(MakeAll(m, calls).image))
  {
    if calls != [] {
      var n := |calls| - 1;
      NeverResets(m, calls[..n]);
      var b := MakeAll(m, calls[..n]);
      if calls[n].SaveCall? {
        if b.on {
          SaveIsAtomic(b, calls[n].cfg);
        } else {
          DeadSave(b, calls[n].cfg);
        }
      }
      hide Save, Selected, Marked;
    }
  }

  // ---------------------------------------------------------------- the program

  class Flash {
    var image: Image
    var power: nat
    var on: bool
    const masks: Sector

    function State(): Machine
      reads this
    {
      Machine(image, power, on, masks)
    }

    constructor (m: Machine)
      ensures State() == m
    {
      image, power, on, masks := m.image, m.power, m.on, m.masks;
    }

    /** `spi_flash_erase_sector` or `spi_flash_write`. */
    method Operate(op: Op)
      requires Fits(op)
      modifies this
      ensures State() == Perform(old(State()), op)
    {
      if on {
        if power > 0 {
          image, power := Done(image, op), power - 1;
        } else {
          image, on := Torn(image, op, masks), false;
        }
      }
    }

    /** `spi_flash_read` from the start of a sector. */
    method Read(sec: nat, size: nat) returns (data: seq<bv8>)
      requires sec < 4 && size <= 4096
      ensures data == image[sec][..size]
    {
      return image[sec][..size];
    }
  }

  /** The globals `saveFlag` and `sysCfg`, and the flash. */
  class ConfigProgram {
    const flash: Flash
    var saveFlag: seq<bv8>
    var sysCfg: SysCfg

    constructor (f: Flash)
      ensures flash == f
    {
      flash, saveFlag, sysCfg := f, [0, 0, 0, 0], Zeros()[..CONFIG_SIZE];
    }

    /** `CFG_Save`. */
    method CfgSave()
      modifies this`saveFlag, flash
      ensures flash.State() == Save(old(flash.State()), sysCfg)
    {
      hide Perform;
      saveFlag := flash.Read(SELECTOR, 4);
      if saveFlag[0] == 0 {
        flash.Operate(Erase(BANK1));
        flash.Operate(Write(BANK1, sysCfg));
        saveFlag := saveFlag[0 := 1];
        flash.Operate(Erase(SELECTOR));
        flash.Operate(Write(SELECTOR, saveFlag));
      } else {
        flash.Operate(Erase(BANK0));
        flash.Operate(Write(BANK0, sysCfg));
        saveFlag := saveFlag[0 := 0];
        flash.Operate(Erase(SELECTOR));
        flash.Operate(Write(SELECTOR, saveFlag));
      }
      ghost var flag: bv8 := if PicksBank0(old(flash.image)) then 1 else 0;
      assert saveFlag == FlagBytes(old(flash.image), flag);
    }

    /** `CFG_Load`; `defaults` stands for the constants that it fills in. */
    method CfgLoad(defaults: Defaults)
      requires flash.on
      modifies this, flash
      ensures flash.State() == Load(old(flash.State()), defaults)
      ensures sysCfg == if Marked(Selected(old(flash.image))) then Selected(old(flash.image)) else defaults
    {
      hide Save;
      saveFlag := flash.Read(SELECTOR, 4);
      if saveFlag[0] == 0 {
        sysCfg := flash.Read(BANK0, CONFIG_SIZE);
      } else {
        sysCfg := flash.Read(BANK1, CONFIG_SIZE);
      }
      if !Marked(sysCfg) {
        sysCfg := defaults;
        CfgSave();
      }
    }
  }
}
