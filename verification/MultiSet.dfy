/**
 * Commanding slate elements: SlateCommandInterface.cc, in particular the all-or-nothing
 * set_multi_by_hash with its rollback.
 *
 * The slate is a map from place to value.  Validators, the size of `unsigned long` and the two
 * conversions between float and double are parameters.
 */
module MultiSet {
  import opened Common

  // ---------- values ----------

  datatype Kind = Bool | Int8 | Int16 | Int32 | Int64 | Uint8 | Uint16 | Uint32 | Ulong | Uint64 | Float | Double | Other

  /** The value of an element: a number of its integer type, or the bits of a float or double. */
  datatype Value = IntValue(n: int) | FloatValue(f: bv32) | DoubleValue(d: bv64)

  /** The value of a command, with its type tag. */
  datatype CommandValue = AsInt(n: int) | AsDbl(d: bv64) | InvalidType

  datatype Command = Command(hash: nat, value: CommandValue)

  /** Where an element lives: its shard, as far as it matters, and its offset. */
  datatype Place = Place(isStatic: bool, offset: nat)

  datatype Element = Element(place: Place, kind: Kind, mayWrite: bool, hasValidator: bool)

  type Slate = map<Place, Value>

  predicate FiniteFloat(f: bv32)
  {
    f & 0x7F80_0000 != 0x7F80_0000
  }

  predicate FiniteDouble(d: bv64)
  {
    d & 0x7FF0_0000_0000_0000 != 0x7FF0_0000_0000_0000
  }

  /** What the interface knows: its elements by hash, the validators, and the machine. */
  datatype Catalogue = Catalogue(elements: map<nat, Element>, accepts: (Place, Value) -> bool,
                                 wideUlong: bool, widen: bv32 -> bv64, narrow: bv64 -> bv32)
  {
    /** One place has one type; widening a float loses nothing, and infinities and NaNs stay what they are. */
    ghost predicate Sound()
    {
      && (forall g, h :: g in elements && h in elements && elements[g].place == elements[h].place
            ==> elements[g].kind == elements[h].kind)
      && (forall f: bv32 :: FiniteFloat(f) ==> narrow(widen(f)) == f && FiniteDouble(widen(f)))
      && (forall f: bv32 :: !FiniteFloat(f) ==> !FiniteFloat(narrow(widen(f))))
    }
  }

  /** The numbers of an integer type. */
  function Lowest(k: Kind): (r: int)
  {
    match k
    case Int8 => -0x80
    case Int16 => -0x8000
    case Int32 => -0x8000_0000
    case Int64 => -0x8000_0000_0000_0000
    case _ => 0
  }

  function Highest(k: Kind, wideUlong: bool): (r: int)
  {
    match k
    case Bool => 1
    case Int8 => 0x7F
    case Int16 => 0x7FFF
    case Int32 => 0x7FFF_FFFF
    case Int64 => 0x7FFF_FFFF_FFFF_FFFF
    case Uint8 => 0xFF
    case Uint16 => 0xFFFF
    case Uint32 => 0xFFFF_FFFF
    case Ulong => if wideUlong then 0xFFFF_FFFF_FFFF_FFFF else 0xFFFF_FFFF
    case Uint64 => 0xFFFF_FFFF_FFFF_FFFF
    case _ => 0
  }

  predicate IsInt(k: Kind)
  {
    !k.Float? && !k.Double? && !k.Other?
  }

  ghost predicate Fits(cat: Catalogue, k: Kind, v: Value)
  {
    match v
    case IntValue(n) => IsInt(k) && Lowest(k) <= n <= Highest(k, cat.wideUlong)
    case FloatValue(_) => k.Float?
    case DoubleValue(_) => k.Double?
  }

  predicate FiniteValue(v: Value)
  {
    match v
    case IntValue(_) => true
    case FloatValue(f) => FiniteFloat(f)
    case DoubleValue(d) => FiniteDouble(d)
  }

  const TWO_63: int := 0x8000_0000_0000_0000
  const TWO_64: int := 0x1_0000_0000_0000_0000
  const TWO_32: int := 0x1_0000_0000

  predicate IsInt64(n: int)
  {
    -TWO_63 <= n < TWO_63
  }

  /** static_cast to INT64. */
  function ToInt64(n: int): (r: int)
  {
    if n >= TWO_63 then n - TWO_64 else n
  }

  /** get: the value of an element as an integer or as a double, as the command asks. */
  function Got(cat: Catalogue, k: Kind, asked: CommandValue, v: Value): (r: Option<CommandValue>)
  {
    match asked
    case AsInt(_) => if IsInt(k) && v.IntValue? then Some(AsInt(ToInt64(v.n))) else None
    case AsDbl(_) =>
      if k.Double? && v.DoubleValue? then Some(AsDbl(v.d))
      else if k.Float? && v.FloatValue? then Some(AsDbl(cat.widen(v.f)))
      else None
    case InvalidType => None
  }

  /** The smallest and largest number a command may give, and what is stored for it. */
  function Stored(cat: Catalogue, k: Kind, c: CommandValue): (r: Option<Value>)
  {
    match c
    case AsInt(n) =>
      if k.Int64? then Some(IntValue(n))
      else if k.Uint64? || (k.Ulong? && cat.wideUlong) then Some(IntValue(if n < 0 then n + TWO_64 else n))
      else if k.Uint32? || k.Ulong? then
        if -0x8000_0000 <= n <= 0xFFFF_FFFF then Some(IntValue(if n < 0 then n + TWO_32 else n)) else None
      else if IsInt(k) && Lowest(k) <= n <= Highest(k, cat.wideUlong) then Some(IntValue(n))
      else None
    case AsDbl(d) =>
      if k.Double? then (if FiniteDouble(d) then Some(DoubleValue(d)) else None)
      else if k.Float? then (if FiniteFloat(cat.narrow(d)) then Some(FloatValue(cat.narrow(d))) else None)
      else None
    case InvalidType => None
  }

  /** The size of an integer type. */
  function Bits(k: Kind, wideUlong: bool): (r: nat)
  {
    match k
    case Bool => 1
    case Int8 | Uint8 => 8
    case Int16 | Uint16 => 16
    case Int32 | Uint32 => 32
    case Ulong => if wideUlong then 64 else 32
    case _ => 64
  }

  lemma TypeSizes()
    ensures Pow2(1) == 2 && Pow2(8) == 0x100 && Pow2(16) == 0x1_0000
    ensures Pow2(32) == 0x1_0000_0000 && Pow2(64) == 0x1_0000_0000_0000_0000
  {
    assert Pow2(8) == 0x100;
    assert Pow2(16) == 0x1_0000;
    assert Pow2(24) == 0x100_0000;
    assert Pow2(32) == 0x1_0000_0000;
    assert Pow2(40) == 0x100_0000_0000;
    assert Pow2(48) == 0x1_0000_0000_0000;
    assert Pow2(56) == 0x100_0000_0000_0000;
  }

  /** The numbers of an integer type are those of its size, in two's complement if it is signed. */
  lemma KindRanges(k: Kind, wideUlong: bool)
    requires IsInt(k)
    ensures var signed := k.Int8? || k.Int16? || k.Int32? || k.Int64?;
      && Highest(k, wideUlong) - Lowest(k) + 1 == Pow2(Bits(k, wideUlong))
      && Lowest(k) == if signed then -Highest(k, wideUlong) - 1 else 0
  {
    TypeSizes();
  }

  /** Not finite is an exponent field of all ones. */
  lemma FiniteBits(f: bv32, d: bv64)
    ensures FiniteFloat(f) <==> (f >> 23) & 0xFF != 0xFF
    ensures FiniteDouble(d) <==> (d >> 52) & 0x7FF != 0x7FF
  {
  }

  /** What a read yields: integers as the INT64 with the same bits, floating-point values as doubles. */
  lemma GotExactly(cat: Catalogue, k: Kind, asked: CommandValue, v: Value)
    requires Fits(cat, k, v)
    ensures Got(cat, k, asked, v).Some? <==> (asked.AsInt? && v.IntValue?) || (asked.AsDbl? && !v.IntValue?)
    ensures asked.AsInt? && v.IntValue? ==>
      var m := Got(cat, k, asked, v).value;
      m.AsInt? && -0x8000_0000_0000_0000 <= m.n <= 0x7FFF_FFFF_FFFF_FFFF && m.n in {v.n, v.n - 0x1_0000_0000_0000_0000}
    ensures asked.AsDbl? && v.DoubleValue? ==> Got(cat, k, asked, v) == Some(AsDbl(v.d))
    ensures asked.AsDbl? && v.FloatValue? ==> Got(cat, k, asked, v) == Some(AsDbl(cat.widen(v.f)))
  {
  }

  /**
   * Which integers a command may give, and what is stored: those of the type, any INT64 for a
   * 64-bit type, and for an unsigned 32-bit type also the negative ones of a signed one; a negative
   * number for an unsigned type is stored as the number with the same bits.
   */
  lemma StoredExactly(cat: Catalogue, k: Kind, n: int)
    requires IsInt64(n)
    ensures var r, signed := Stored(cat, k, AsInt(n)), k.Int8? || k.Int16? || k.Int32? || k.Int64?;
      && (r.Some? <==> IsInt(k) && (|| Lowest(k) <= n <= Highest(k, cat.wideUlong)
                                    || Bits(k, cat.wideUlong) == 64
                                    || ((k.Uint32? || k.Ulong?) && -0x8000_0000 <= n < 0)))
      && (r.Some? ==> r.value == IntValue(if n < 0 && !signed then n + Pow2(Bits(k, cat.wideUlong)) else n))
  {
    hide Pow2;
    TypeSizes();
  }

  /** Which doubles: finite ones, for a float after narrowing. */
  lemma StoredDoubles(cat: Catalogue, k: Kind, d: bv64)
    ensures Stored(cat, k, AsDbl(d)) ==
      if k.Double? && (d >> 52) & 0x7FF != 0x7FF then Some(DoubleValue(d))
      else if k.Float? && (cat.narrow(d) >> 23) & 0xFF != 0xFF then Some(FloatValue(cat.narrow(d)))
      else None
    ensures Stored(cat, k, InvalidType) == None
  {
    FiniteBits(cat.narrow(d), d);
  }

  /**
   * Storing back what was read is an identity for each element type, exactly when the value is
   * finite.
   */
  lemma GetThenSet(cat: Catalogue, k: Kind, asked: CommandValue, v: Value)
    requires cat.Sound() && Fits(cat, k, v) && Got(cat, k, asked, v).Some?
    ensures Stored(cat, k, Got(cat, k, asked, v).value) == if FiniteValue(v) then Some(v) else None
  {
  }

  /**
   * What a command stores is a value of the type, and reads back as commanded; only a negative
   * number for a 32-bit unsigned element reads back as the number with the same bits.
   */
  lemma StoredIsCommanded(cat: Catalogue, k: Kind, n: int)
    requires IsInt64(n) && Stored(cat, k, AsInt(n)).Some?
    ensures var v := Stored(cat, k, AsInt(n)).value;
      && Fits(cat, k, v)
      && Got(cat, k, AsInt(n), v) == Some(AsInt(if n < 0 && (k.Uint32? || (k.Ulong? && !cat.wideUlong)) then n + TWO_32 else n))
  {
  }

  // ---------- one command ----------

  /** store: read-only elements and values that the validator rejects are refused. */
  predicate Storable(cat: Catalogue, e: Element, v: Value)
  {
    e.mayWrite && (e.hasValidator ==> cat.accepts(e.place, v))
  }

  /** What set makes of a command; None if it refuses. */
  function Settled(cat: Catalogue, e: Element, c: CommandValue): (r: Option<Value>)
  {
    match Stored(cat, e.kind, c)
    case Some(v) => if Storable(cat, e, v) then Some(v) else None
    case None => None
  }

  /** A slate in which each element of the catalogue has a value of its type. */
  ghost predicate WellTyped(cat: Catalogue, slate: Slate)
  {
    forall h :: h in cat.elements ==> cat.elements[h].place in slate && Fits(cat, cat.elements[h].kind, slate[cat.elements[h].place])
  }

  predicate InRange(c: CommandValue)
  {
    c.AsInt? ==> IsInt64(c.n)
  }

  ghost predicate AllInRange(cmds: seq<Command>)
  {
    forall i :: 0 <= i < |cmds| ==> InRange(cmds[i].value)
  }

  predicate Readable(cat: Catalogue, slate: Slate, cmd: Command)
  {
    && cmd.hash in cat.elements
    && cat.elements[cmd.hash].place in slate
    && Got(cat, cat.elements[cmd.hash].kind, cmd.value, slate[cat.elements[cmd.hash].place]).Some?
  }

  /** The first pass carries the command out; it does not look at the shard. */
  predicate Applies(cat: Catalogue, slate: Slate, cmd: Command)
  {
    Readable(cat, slate, cmd) && Settled(cat, cat.elements[cmd.hash], cmd.value).Some?
  }

  function Apply(cat: Catalogue, slate: Slate, cmd: Command): (r: Slate)
  {
    if Applies(cat, slate, cmd)
    then slate[cat.elements[cmd.hash].place := Settled(cat, cat.elements[cmd.hash], cmd.value).value]
    else slate
  }

  /**
   * A command is carried out exactly when its element is known and writable, the value can be stored
   * in its type, and the validator, if there is one, accepts what is stored.
   */
  lemma AppliesExactly(cat: Catalogue, slate: Slate, cmd: Command)
    requires WellTyped(cat, slate) && InRange(cmd.value)
    ensures Applies(cat, slate, cmd) <==>
      (cmd.hash in cat.elements &&
       var e := cat.elements[cmd.hash];
       var r := Stored(cat, e.kind, cmd.value);
       r.Some? && e.mayWrite && (e.hasValidator ==> cat.accepts(e.place, r.value)))
    ensures Applies(cat, slate, cmd) ==>
      var e := cat.elements[cmd.hash];
      Apply(cat, slate, cmd) == slate[e.place := Stored(cat, e.kind, cmd.value).value]
    ensures !Applies(cat, slate, cmd) ==> Apply(cat, slate, cmd) == slate
  {
    if cmd.hash in cat.elements {
      var e := cat.elements[cmd.hash];
      GotExactly(cat, e.kind, cmd.value, slate[e.place]);
      if Stored(cat, e.kind, cmd.value).Some? {
        StoredKind(cat, e.kind, cmd.value);
      }
    }
  }

  lemma StoredKind(cat: Catalogue, k: Kind, c: CommandValue)
    requires InRange(c) && Stored(cat, k, c).Some?
    ensures if c.AsInt? then IsInt(k) else c.AsDbl? && !IsInt(k)
  {
  }

  /** The command with the present value in place of the commanded one. */
  function Recorded(cat: Catalogue, slate: Slate, cmd: Command): (r: Command)
  {
    if Readable(cat, slate, cmd) then
      cmd.(value := Got(cat, cat.elements[cmd.hash].kind, cmd.value, slate[cat.elements[cmd.hash].place]).value)
    else cmd
  }

  /** The rollback of one command; unlike the first pass it refuses static elements. */
  predicate RollsBack(cat: Catalogue, cmd: Command)
  {
    && cmd.hash in cat.elements
    && !cat.elements[cmd.hash].place.isStatic
    && Settled(cat, cat.elements[cmd.hash], cmd.value).Some?
  }

  function RollBack(cat: Catalogue, slate: Slate, cmd: Command): (r: Slate)
  {
    if RollsBack(cat, cmd)
    then slate[cat.elements[cmd.hash].place := Settled(cat, cat.elements[cmd.hash], cmd.value).value]
    else slate
  }

  // ---------- the two passes ----------

  /** The slate after the first j commands. */
  function After(cat: Catalogue, slate: Slate, cmds: seq<Command>, j: nat): (r: Slate)
    requires j <= |cmds|
  {
    if j == 0 then slate else Apply(cat, After(cat, slate, cmds, j - 1), cmds[j - 1])
  }

  /** How many commands the first pass carries out: those before the first that fails. */
  function Done(cat: Catalogue, slate: Slate, cmds: seq<Command>, from: nat): (k: nat)
    requires from <= |cmds|
    ensures from <= k <= |cmds|
    ensures forall j :: from <= j < k ==> Applies(cat, After(cat, slate, cmds, j), cmds[j])
    ensures k < |cmds| ==> !Applies(cat, After(cat, slate, cmds, k), cmds[k])
    decreases |cmds| - from
  {
    if from == |cmds| || !Applies(cat, After(cat, slate, cmds, from), cmds[from]) then from
    else Done(cat, slate, cmds, from + 1)
  }

  /** The commands as the first pass leaves them. */
  ghost predicate IsRecord(cat: Catalogue, slate: Slate, cmds: seq<Command>, records: seq<Command>, k: nat)
    requires k <= |cmds|
  {
    && |records| == |cmds|
    && forall j :: 0 <= j < k ==> records[j] == Recorded(cat, After(cat, slate, cmds, j), cmds[j])
  }

  /** The slate after the first j steps of the rollback. */
  function Rolled(cat: Catalogue, slate: Slate, records: seq<Command>, j: nat): (r: Slate)
    requires j <= |records|
  {
    if j == 0 then slate else RollBack(cat, Rolled(cat, slate, records, j - 1), records[j - 1])
  }

  // ---------- what the passes keep ----------

  lemma SettledFits(cat: Catalogue, e: Element, c: CommandValue)
    requires InRange(c) && Settled(cat, e, c).Some?
    ensures Fits(cat, e.kind, Settled(cat, e, c).value) && FiniteValue(Settled(cat, e, c).value)
  {
  }

  lemma StepKeepsTypes(cat: Catalogue, slate: Slate, cmd: Command)
    requires cat.Sound() && WellTyped(cat, slate) && InRange(cmd.value)
    ensures WellTyped(cat, Apply(cat, slate, cmd)) && WellTyped(cat, RollBack(cat, slate, cmd))
  {
    hide Settled, Got, Fits;
    if cmd.hash in cat.elements && Settled(cat, cat.elements[cmd.hash], cmd.value).Some? {
      SettledFits(cat, cat.elements[cmd.hash], cmd.value);
    }
  }

  lemma {:induction false} AfterKeepsTypes(cat: Catalogue, slate: Slate, cmds: seq<Command>, j: nat)
    requires cat.Sound() && WellTyped(cat, slate) && AllInRange(cmds) && j <= |cmds|
    ensures WellTyped(cat, After(cat, slate, cmds, j))
  {
    hide WellTyped, Apply;
    if j > 0 {
      AfterKeepsTypes(cat, slate, cmds, j - 1);
      StepKeepsTypes(cat, After(cat, slate, cmds, j - 1), cmds[j - 1]);
    }
  }

  lemma RecordedInRange(cat: Catalogue, slate: Slate, cmd: Command)
    requires WellTyped(cat, slate) && InRange(cmd.value)
    ensures InRange(Recorded(cat, slate, cmd).value)
  {
  }

  /**
   * The rollback of a command stores what the place held before it, exactly when that is finite
   * and the validator lets it pass.
   */
  lemma RecordRestores(cat: Catalogue, slate: Slate, cmd: Command)
    requires cat.Sound() && WellTyped(cat, slate) && Readable(cat, slate, cmd)
    ensures var e, was := cat.elements[cmd.hash], slate[cat.elements[cmd.hash].place];
      Settled(cat, e, Recorded(cat, slate, cmd).value)
        == if FiniteValue(was) && Storable(cat, e, was) then Some(was) else None
  {
    var e, was := cat.elements[cmd.hash], slate[cat.elements[cmd.hash].place];
    GetThenSet(cat, e.kind, cmd.value, was);
  }

  // ---------- what may be written at all ----------

  /** Some writable element at the place has a validator that accepts the value, or none. */
  ghost predicate Licensed(cat: Catalogue, p: Place, v: Value)
  {
    exists h :: h in cat.elements && cat.elements[h].place == p && cat.elements[h].mayWrite
      && (cat.elements[h].hasValidator ==> cat.accepts(p, v))
  }

  lemma StepIsLicensed(cat: Catalogue, slate: Slate, cmd: Command, p: Place)
    requires p in slate
    ensures var now := Apply(cat, slate, cmd); p in now && (now[p] == slate[p] || Licensed(cat, p, now[p]))
    ensures var now := RollBack(cat, slate, cmd); p in now && (now[p] == slate[p] || Licensed(cat, p, now[p]))
  {
    hide Stored, Got;
    if cmd.hash in cat.elements && Settled(cat, cat.elements[cmd.hash], cmd.value).Some? {
      assert Licensed(cat, cat.elements[cmd.hash].place, Settled(cat, cat.elements[cmd.hash], cmd.value).value);
    }
  }

  /** Nothing that a validator rejects reaches the slate, and nothing that is not writable changes: on the way there... */
  lemma {:induction false} AfterIsLicensed(cat: Catalogue, slate: Slate, cmds: seq<Command>, j: nat, p: Place)
    requires j <= |cmds| && p in slate
    ensures var now := After(cat, slate, cmds, j); p in now && (now[p] == slate[p] || Licensed(cat, p, now[p]))
  {
    hide Apply, Licensed;
    if j > 0 {
      AfterIsLicensed(cat, slate, cmds, j - 1, p);
      StepIsLicensed(cat, After(cat, slate, cmds, j - 1), cmds[j - 1], p);
    }
  }

  /** ... and in the rollback. */
  lemma {:induction false} RolledIsLicensed(cat: Catalogue, slate: Slate, records: seq<Command>, j: nat, p: Place)
    requires j <= |records| && p in slate
    ensures var now := Rolled(cat, slate, records, j); p in now && (now[p] == slate[p] || Licensed(cat, p, now[p]))
  {
    hide RollBack, Licensed;
    if j > 0 {
      RolledIsLicensed(cat, slate, records, j - 1, p);
      StepIsLicensed(cat, Rolled(cat, slate, records, j - 1), records[j - 1], p);
    }
  }

  lemma EverythingIsLicensed(cat: Catalogue, slate: Slate, cmds: seq<Command>, records: seq<Command>, k: nat)
    requires k <= |cmds| == |records|
    ensures var all := After(cat, slate, cmds, k);
      && (forall p :: p in slate ==> p in all && (all[p] == slate[p] || Licensed(cat, p, all[p])))
      && (forall p :: p in slate ==>
            var r := Rolled(cat, all, records, k); p in r && (r[p] == slate[p] || Licensed(cat, p, r[p])))
  {
    hide After, Rolled, Licensed;
    var all := After(cat, slate, cmds, k);
    forall p | p in slate
      ensures p in all && (all[p] == slate[p] || Licensed(cat, p, all[p]))
      ensures var r := Rolled(cat, all, records, k); p in r && (r[p] == slate[p] || Licensed(cat, p, r[p]))
    {
      AfterIsLicensed(cat, slate, cmds, k, p);
      RolledIsLicensed(cat, all, records, k, p);
    }
  }

  // ---------- all or nothing ----------

  /** The first k commands are carried out one after the other. */
  ghost predicate AllApply(cat: Catalogue, slate: Slate, cmds: seq<Command>, k: nat)
    requires k <= |cmds|
  {
    forall j :: 0 <= j < k ==> Applies(cat, After(cat, slate, cmds, j), cmds[j])
  }

  predicate Known(cat: Catalogue, cmds: seq<Command>, k: nat)
    requires k <= |cmds|
  {
    forall j :: 0 <= j < k ==> cmds[j].hash in cat.elements
  }

  function Target(cat: Catalogue, cmd: Command): (r: Place)
    requires cmd.hash in cat.elements
  {
    cat.elements[cmd.hash].place
  }

  /** The last of the first m commands for a place, or -1. */
  function LastIndex(cat: Catalogue, cmds: seq<Command>, m: nat, p: Place): (j: int)
    requires m <= |cmds| && Known(cat, cmds, m)
    ensures -1 <= j < m
    ensures j >= 0 ==> Target(cat, cmds[j]) == p
    ensures forall i :: j < i < m ==> Target(cat, cmds[i]) != p
  {
    if m == 0 then -1
    else if Target(cat, cmds[m - 1]) == p then m - 1
    else LastIndex(cat, cmds, m - 1, p)
  }

  /**
   * After the commands each target holds the value of the last command for it, and every other
   * place what it held before.
   */
  lemma {:induction false} AfterAt(cat: Catalogue, slate: Slate, cmds: seq<Command>, k: nat, p: Place)
    requires k <= |cmds| && AllApply(cat, slate, cmds, k) && Known(cat, cmds, k) && p in slate
    ensures var after, j := After(cat, slate, cmds, k), LastIndex(cat, cmds, k, p);
      && after.Keys == slate.Keys
      && (j < 0 ==> after[p] == slate[p])
      && (j >= 0 ==> Settled(cat, cat.elements[cmds[j].hash], cmds[j].value) == Some(after[p]))
  {
    hide Settled, Applies, Apply;
    if k > 0 {
      assert Applies(cat, After(cat, slate, cmds, k - 1), cmds[k - 1]);
      AfterAt(cat, slate, cmds, k - 1, p);
      ApplyAt(cat, After(cat, slate, cmds, k - 1), cmds[k - 1], p);
    }
  }

  lemma ApplyAt(cat: Catalogue, slate: Slate, cmd: Command, p: Place)
    requires Applies(cat, slate, cmd) && p in slate
    ensures cmd.hash in cat.elements
    ensures var after := Apply(cat, slate, cmd);
      && after.Keys == slate.Keys
      && if Target(cat, cmd) == p then Settled(cat, cat.elements[cmd.hash], cmd.value) == Some(after[p])
         else after[p] == slate[p]
  {
    hide Settled, Got;
  }

  /** What the target of command j holds when its turn comes. */
  function Held(cat: Catalogue, slate: Slate, cmds: seq<Command>, j: nat): (r: Option<Value>)
    requires j < |cmds| && Known(cat, cmds, j + 1)
  {
    var after := After(cat, slate, cmds, j);
    if Target(cat, cmds[j]) in after then Some(after[Target(cat, cmds[j])]) else None
  }

  /** Each of the first k targets takes back what it held: not static, finite, and valid. */
  ghost predicate Undoable(cat: Catalogue, slate: Slate, cmds: seq<Command>, k: nat)
    requires k <= |cmds| && Known(cat, cmds, k)
  {
    forall j {:trigger Held(cat, slate, cmds, j)} :: 0 <= j < k && Held(cat, slate, cmds, j).Some? ==>
      && !Target(cat, cmds[j]).isStatic
      && FiniteValue(Held(cat, slate, cmds, j).value)
      && Storable(cat, cat.elements[cmds[j].hash], Held(cat, slate, cmds, j).value)
  }

  lemma ApplyingIsKnown(cat: Catalogue, slate: Slate, cmds: seq<Command>, k: nat)
    requires k <= |cmds| && AllApply(cat, slate, cmds, k)
    ensures Known(cat, cmds, k)
    ensures forall j :: 0 <= j < k ==> Held(cat, slate, cmds, j).Some?
  {
    hide After;
    forall j | 0 <= j < k ensures cmds[j].hash in cat.elements && Held(cat, slate, cmds, j).Some? {
      assert Applies(cat, After(cat, slate, cmds, j), cmds[j]);
    }
  }

  /** One step of the rollback undoes one command. */
  lemma RollsBackOne(cat: Catalogue, slate: Slate, cmds: seq<Command>, records: seq<Command>, k: nat, j: nat)
    requires cat.Sound() && WellTyped(cat, slate) && AllInRange(cmds)
    requires j < k <= |cmds| && AllApply(cat, slate, cmds, k) && IsRecord(cat, slate, cmds, records, k)
    requires Known(cat, cmds, k) && Undoable(cat, slate, cmds, k)
    ensures RollsBack(cat, records[j]) && records[j].hash == cmds[j].hash
    ensures Held(cat, slate, cmds, j) == Settled(cat, cat.elements[cmds[j].hash], records[j].value)
  {
    hide After, Settled, Got, Storable;
    ApplyingIsKnown(cat, slate, cmds, k);
    AfterKeepsTypes(cat, slate, cmds, j);
    RecordRestores(cat, After(cat, slate, cmds, j), cmds[j]);
    assert Held(cat, slate, cmds, j).Some?;
    assert Applies(cat, After(cat, slate, cmds, j), cmds[j]);
    assert records[j] == Recorded(cat, After(cat, slate, cmds, j), cmds[j]);
  }

  /** The rollback leaves each target with what the last command for it found there. */
  lemma {:induction false} RolledAt(cat: Catalogue, slate: Slate, cmds: seq<Command>, records: seq<Command>, k: nat,
                                    t: Slate, m: nat, p: Place)
    requires cat.Sound() && WellTyped(cat, slate) && AllInRange(cmds)
    requires m <= k <= |cmds| && AllApply(cat, slate, cmds, k) && IsRecord(cat, slate, cmds, records, k)
    requires Known(cat, cmds, k) && Undoable(cat, slate, cmds, k)
    requires t.Keys == slate.Keys
    ensures var rolled, j := Rolled(cat, t, records, m), LastIndex(cat, cmds, m, p);
      && rolled.Keys == slate.Keys
      && (p in slate && j < 0 ==> rolled[p] == t[p])
      && (p in slate && j >= 0 ==> Held(cat, slate, cmds, j) == Some(rolled[p]))
  {
    hide Settled, AllApply, Undoable, IsRecord, WellTyped, Catalogue.Sound, Held;
    if m > 0 {
      RolledAt(cat, slate, cmds, records, k, t, m - 1, p);
      RollsBackOne(cat, slate, cmds, records, k, m - 1);
      TargetIsPlace(cat, slate, cmds, k, m - 1);
    }
  }

  lemma TargetIsPlace(cat: Catalogue, slate: Slate, cmds: seq<Command>, k: nat, j: nat)
    requires j < k <= |cmds| && AllApply(cat, slate, cmds, k) && Known(cat, cmds, k)
    ensures Target(cat, cmds[j]) in slate && Held(cat, slate, cmds, j).Some?
  {
    ApplyingIsKnown(cat, slate, cmds, k);
    AfterKeys(cat, slate, cmds, j);
  }

  lemma {:induction false} AfterKeys(cat: Catalogue, slate: Slate, cmds: seq<Command>, k: nat)
    requires k <= |cmds|
    ensures After(cat, slate, cmds, k).Keys == slate.Keys
  {
    if k > 0 {
      AfterKeys(cat, slate, cmds, k - 1);
    }
  }

  /**
   * If a place is commanded more than once, the last command but one gives it the value it had at
   * the start.
   */
  ghost predicate NoEcho(cat: Catalogue, slate: Slate, cmds: seq<Command>, k: nat, p: Place)
    requires k <= |cmds| && Known(cat, cmds, k) && p in slate
  {
    var j := LastIndex(cat, cmds, k, p);
    j >= 0 ==>
      var i := LastIndex(cat, cmds, j, p);
      i >= 0 ==> Settled(cat, cat.elements[cmds[i].hash], cmds[i].value) == Some(slate[p])
  }

  lemma RestoredAt(cat: Catalogue, slate: Slate, cmds: seq<Command>, records: seq<Command>, k: nat, p: Place)
    requires cat.Sound() && WellTyped(cat, slate) && AllInRange(cmds)
    requires k <= |cmds| && AllApply(cat, slate, cmds, k) && IsRecord(cat, slate, cmds, records, k)
    requires Known(cat, cmds, k) && Undoable(cat, slate, cmds, k)
    ensures var rolled := Rolled(cat, After(cat, slate, cmds, k), records, k);
      && rolled.Keys == slate.Keys
      && (p in slate ==> (rolled[p] == slate[p] <==> NoEcho(cat, slate, cmds, k, p)))
  {
    hide Settled, AllApply, Undoable, IsRecord, WellTyped, Catalogue.Sound, Rolled, After, AllInRange;
    AfterKeys(cat, slate, cmds, k);
    RolledAt(cat, slate, cmds, records, k, After(cat, slate, cmds, k), k, p);
    if p in slate {
      AfterAt(cat, slate, cmds, k, p);
      var j := LastIndex(cat, cmds, k, p);
      if j >= 0 {
        AllApplyPrefix(cat, slate, cmds, k, j);
        AfterAt(cat, slate, cmds, j, p);
      }
    }
  }

  lemma AllApplyPrefix(cat: Catalogue, slate: Slate, cmds: seq<Command>, k: nat, j: nat)
    requires j <= k <= |cmds| && AllApply(cat, slate, cmds, k)
    ensures AllApply(cat, slate, cmds, j)
  {
  }

  /**
   * The rollback restores the slate exactly when no repeated target shows: it runs forwards, so
   * what it leaves is what the last command for a target found.
   */
  lemma RestoresExactly(cat: Catalogue, slate: Slate, cmds: seq<Command>, records: seq<Command>, k: nat)
    requires cat.Sound() && WellTyped(cat, slate) && AllInRange(cmds)
    requires k <= |cmds| && AllApply(cat, slate, cmds, k) && IsRecord(cat, slate, cmds, records, k)
    requires Known(cat, cmds, k) && Undoable(cat, slate, cmds, k)
    ensures Rolled(cat, After(cat, slate, cmds, k), records, k) == slate
       <==> forall p :: p in slate ==> NoEcho(cat, slate, cmds, k, p)
  {
    hide Settled, AllApply, Undoable, WellTyped, Catalogue.Sound, Rolled, After, AllInRange, NoEcho;
    var rolled := Rolled(cat, After(cat, slate, cmds, k), records, k);
    RestoredAt(cat, slate, cmds, records, k, Place(false, 0));
    forall p | p in slate ensures rolled[p] == slate[p] <==> NoEcho(cat, slate, cmds, k, p) {
      RestoredAt(cat, slate, cmds, records, k, p);
    }
  }

  /** What the rollback reports: true exactly when every step went through. */
  ghost predicate AllRollBack(cat: Catalogue, records: seq<Command>, k: nat)
    requires k <= |records|
  {
    forall j :: 0 <= j < k ==> RollsBack(cat, records[j])
  }

  /**
   * A failed multi-set reports a complete rollback exactly when no target is static and each target
   * held a finite value that its validator accepts.
   */
  lemma ReportsExactly(cat: Catalogue, slate: Slate, cmds: seq<Command>, records: seq<Command>, k: nat)
    requires cat.Sound() && WellTyped(cat, slate) && AllInRange(cmds)
    requires k <= |cmds| && AllApply(cat, slate, cmds, k) && IsRecord(cat, slate, cmds, records, k)
    requires Known(cat, cmds, k)
    ensures AllRollBack(cat, records, k) <==> Undoable(cat, slate, cmds, k)
  {
    hide After, Settled, Got, Storable, Applies;
    forall j | 0 <= j < k
      ensures Held(cat, slate, cmds, j).Some?
      ensures RollsBack(cat, records[j])
         <==> (!Target(cat, cmds[j]).isStatic
               && FiniteValue(Held(cat, slate, cmds, j).value)
               && Storable(cat, cat.elements[cmds[j].hash], Held(cat, slate, cmds, j).value))
    {
      TargetIsPlace(cat, slate, cmds, k, j);
      AfterKeepsTypes(cat, slate, cmds, j);
      AppliesIsReadable(cat, After(cat, slate, cmds, j), cmds[j]);
      RecordRestores(cat, After(cat, slate, cmds, j), cmds[j]);
      assert records[j] == Recorded(cat, After(cat, slate, cmds, j), cmds[j]);
    }
  }

  lemma AppliesIsReadable(cat: Catalogue, slate: Slate, cmd: Command)
    ensures Applies(cat, slate, cmd) ==> Readable(cat, slate, cmd)
  {
  }

  /** The rollback never touches a static element, although the first pass writes it. */
  lemma {:induction false} StaticStays(cat: Catalogue, t: Slate, records: seq<Command>, m: nat, p: Place)
    requires m <= |records| && p.isStatic && p in t
    ensures p in Rolled(cat, t, records, m) && Rolled(cat, t, records, m)[p] == t[p]
  {
    if m > 0 {
      StaticStays(cat, t, records, m - 1, p);
    }
  }

  /** So a static target that was changed before the failure stays changed. */
  lemma StaticIsNotRestored(cat: Catalogue, slate: Slate, cmds: seq<Command>, records: seq<Command>, k: nat, p: Place)
    requires k <= |cmds| == |records| && AllApply(cat, slate, cmds, k) && Known(cat, cmds, k)
    requires p.isStatic && p in slate
    ensures Rolled(cat, After(cat, slate, cmds, k), records, k) == slate ==>
      var j := LastIndex(cat, cmds, k, p);
      j >= 0 ==> Settled(cat, cat.elements[cmds[j].hash], cmds[j].value) == Some(slate[p])
  {
    hide Settled, Applies, Rolled, After;
    AfterAt(cat, slate, cmds, k, p);
    StaticStays(cat, After(cat, slate, cmds, k), records, k, p);
  }

  /** A place that is commanded more than once gets its initial value back before the last command. */
  ghost predicate NoEchoes(cat: Catalogue, slate: Slate, cmds: seq<Command>, k: nat)
    requires k <= |cmds| && Known(cat, cmds, k)
  {
    forall p :: p in slate ==> NoEcho(cat, slate, cmds, k, p)
  }

  /**
   * When a failing multi-set is all or nothing: its rollback goes through and leaves the slate as it
   * was exactly when every target takes back what it held and no repeated target shows.
   */
  lemma AllOrNothingExactly(cat: Catalogue, slate: Slate, cmds: seq<Command>, records: seq<Command>, k: nat)
    requires cat.Sound() && WellTyped(cat, slate) && AllInRange(cmds)
    requires k <= |cmds| && AllApply(cat, slate, cmds, k) && IsRecord(cat, slate, cmds, records, k)
    requires Known(cat, cmds, k)
    ensures (AllRollBack(cat, records, k) && Rolled(cat, After(cat, slate, cmds, k), records, k) == slate)
       <==> (Undoable(cat, slate, cmds, k) && NoEchoes(cat, slate, cmds, k))
  {
    hide After, Settled, AllRollBack, Rolled, WellTyped, Catalogue.Sound, NoEcho, Undoable, IsRecord, AllApply, AllInRange;
    ReportsExactly(cat, slate, cmds, records, k);
    if Undoable(cat, slate, cmds, k) {
      RestoresExactly(cat, slate, cmds, records, k);
    }
  }

  /**
   * What a caller can check beforehand: the known targets are distinct, not static, hold finite
   * values, and their validators accept the values they hold.
   */
  ghost predicate Restorable(cat: Catalogue, slate: Slate, cmds: seq<Command>)
  {
    && (forall i, j :: 0 <= i < j < |cmds| && cmds[i].hash in cat.elements && cmds[j].hash in cat.elements
          ==> Target(cat, cmds[i]) != Target(cat, cmds[j]))
    && (forall j :: 0 <= j < |cmds| && cmds[j].hash in cat.elements && Target(cat, cmds[j]) in slate ==>
          var e := cat.elements[cmds[j].hash];
          && !e.place.isStatic && FiniteValue(slate[e.place])
          && (e.hasValidator ==> cat.accepts(e.place, slate[e.place])))
  }

  lemma DistinctIsUndoable(cat: Catalogue, slate: Slate, cmds: seq<Command>, k: nat)
    requires k <= |cmds| && AllApply(cat, slate, cmds, k) && Known(cat, cmds, k) && Restorable(cat, slate, cmds)
    ensures Undoable(cat, slate, cmds, k)
    ensures forall p :: p in slate ==> NoEcho(cat, slate, cmds, k, p)
  {
    hide After, Got;
    forall j | 0 <= j < k
      ensures Held(cat, slate, cmds, j).Some?
        && !Target(cat, cmds[j]).isStatic
        && FiniteValue(Held(cat, slate, cmds, j).value)
        && Storable(cat, cat.elements[cmds[j].hash], Held(cat, slate, cmds, j).value)
    {
      var p := Target(cat, cmds[j]);
      TargetIsPlace(cat, slate, cmds, k, j);
      AllApplyPrefix(cat, slate, cmds, k, j);
      AfterAt(cat, slate, cmds, j, p);
      assert Applies(cat, After(cat, slate, cmds, j), cmds[j]);
    }
  }

  /** All or nothing: a multi-set that fails leaves the slate as it was, and says so. */
  lemma AllOrNothing(cat: Catalogue, slate: Slate, cmds: seq<Command>, records: seq<Command>, k: nat)
    requires cat.Sound() && WellTyped(cat, slate) && AllInRange(cmds) && Restorable(cat, slate, cmds)
    requires k <= |cmds| && AllApply(cat, slate, cmds, k) && IsRecord(cat, slate, cmds, records, k)
    ensures Rolled(cat, After(cat, slate, cmds, k), records, k) == slate && AllRollBack(cat, records, k)
  {
    hide After, Settled, Got, Storable, Applies, Rolled, Restorable, WellTyped, Catalogue.Sound, NoEcho, Undoable, RollsBack;
    ApplyingIsKnown(cat, slate, cmds, k);
    DistinctIsUndoable(cat, slate, cmds, k);
    RestoresExactly(cat, slate, cmds, records, k);
    forall j | 0 <= j < k ensures RollsBack(cat, records[j]) {
      RollsBackOne(cat, slate, cmds, records, k, j);
    }
  }

  // ---------- inputs on which it is not all or nothing ----------

  /** An unvalidated 32-bit element, alone in the catalogue under hash 7. */
  predicate OnlyElement(cat: Catalogue, p: Place)
  {
    cat.elements == map[7 := Element(p, Int32, true, false)]
  }

  lemma OneSet(cat: Catalogue, p: Place, n: int, was: int)
    requires OnlyElement(cat, p) && 0 <= n < 10 && 0 <= was < 10
    ensures var slate, cmd := map[p := IntValue(was)], Command(7, AsInt(n));
      && Applies(cat, slate, cmd) && Apply(cat, slate, cmd) == map[p := IntValue(n)]
      && Recorded(cat, slate, cmd) == Command(7, AsInt(was))
    ensures forall t: Slate :: RollBack(cat, t, Command(7, AsInt(n))) == if p.isStatic then t else t[p := IntValue(n)]
    ensures RollsBack(cat, Command(7, AsInt(n))) <==> !p.isStatic
  {
  }

  /** From 0, the commands 1, 2 and one for an unknown element leave 1: what the second command found. */
  lemma EchoIsNotRestored(cat: Catalogue)
    requires OnlyElement(cat, Place(false, 0))
    ensures var p, slate := Place(false, 0), map[Place(false, 0) := IntValue(0)];
      var cmds := [Command(7, AsInt(1)), Command(7, AsInt(2)), Command(8, AsInt(0))];
      var records := [Command(7, AsInt(0)), Command(7, AsInt(1)), Command(8, AsInt(0))];
      && Done(cat, slate, cmds, 0) == 2 && IsRecord(cat, slate, cmds, records, 2)
      && AllRollBack(cat, records, 2)
      && Rolled(cat, After(cat, slate, cmds, 2), records, 2) == map[p := IntValue(1)]
  {
    hide Apply, Applies, RollBack, RollsBack, Recorded;
    var p, slate := Place(false, 0), map[Place(false, 0) := IntValue(0)];
    var cmds := [Command(7, AsInt(1)), Command(7, AsInt(2)), Command(8, AsInt(0))];
    OneSet(cat, p, 1, 0);
    OneSet(cat, p, 2, 1);
    OneSet(cat, p, 0, 2);
    UnknownFails(cat, map[p := IntValue(2)]);
    assert After(cat, slate, cmds, 1) == map[p := IntValue(1)];
    assert After(cat, slate, cmds, 2) == map[p := IntValue(2)];
    assert Done(cat, slate, cmds, 2) == 2;
    assert Done(cat, slate, cmds, 1) == 2;
    var records := [Command(7, AsInt(0)), Command(7, AsInt(1)), Command(8, AsInt(0))];
    var t := After(cat, slate, cmds, 2);
    assert Rolled(cat, t, records, 1) == t[p := IntValue(0)];
  }

  lemma UnknownFails(cat: Catalogue, slate: Slate)
    requires 8 !in cat.elements
    ensures !Applies(cat, slate, Command(8, AsInt(0)))
  {
  }

  /** A static element that was set to 1 stays 1 when a later command fails, and the failure is reported. */
  lemma StaticStaysChanged(cat: Catalogue)
    requires OnlyElement(cat, Place(true, 0))
    ensures var p, slate := Place(true, 0), map[Place(true, 0) := IntValue(0)];
      var cmds := [Command(7, AsInt(1)), Command(8, AsInt(0))];
      var records := [Command(7, AsInt(0)), Command(8, AsInt(0))];
      && Done(cat, slate, cmds, 0) == 1 && IsRecord(cat, slate, cmds, records, 1)
      && !AllRollBack(cat, records, 1)
      && Rolled(cat, After(cat, slate, cmds, 1), records, 1) == map[p := IntValue(1)]
  {
    hide Apply, Applies, RollBack, RollsBack, Recorded;
    var p, slate := Place(true, 0), map[Place(true, 0) := IntValue(0)];
    var cmds := [Command(7, AsInt(1)), Command(8, AsInt(0))];
    OneSet(cat, p, 1, 0);
    OneSet(cat, p, 0, 1);
    UnknownFails(cat, map[p := IntValue(1)]);
    assert After(cat, slate, cmds, 1) == map[p := IntValue(1)];
    assert Done(cat, slate, cmds, 1) == 1;
    var records := [Command(7, AsInt(0)), Command(8, AsInt(0))];
    assert Rolled(cat, map[p := IntValue(1)], records, 1) == map[p := IntValue(1)];
  }

  // ---------- the loop of the first pass ----------

  /** The first i commands were carried out and recorded; the others are as they were. */
  ghost predicate Passed(cat: Catalogue, start: Slate, was: seq<Command>, now: seq<Command>, i: nat)
  {
    && i <= |was|
    && IsRecord(cat, start, was, now, i)
    && (forall j :: i <= j < |was| ==> now[j] == was[j])
    && (forall j :: 0 <= j < i ==> InRange(now[j].value))
    && Done(cat, start, was, 0) == Done(cat, start, was, i)
  }

  lemma PassStarts(cat: Catalogue, start: Slate, was: seq<Command>)
    ensures Passed(cat, start, was, was, 0) && After(cat, start, was, 0) == start
  {
  }

  lemma NextInRange(cat: Catalogue, start: Slate, was: seq<Command>, now: seq<Command>, i: nat)
    requires AllInRange(was) && Passed(cat, start, was, now, i) && i < |was|
    requires WellTyped(cat, After(cat, start, was, i))
    ensures |now| == |was| && now[i] == was[i] && InRange(was[i].value)
    ensures InRange(Recorded(cat, After(cat, start, was, i), was[i]).value)
  {
    RecordedInRange(cat, After(cat, start, was, i), was[i]);
  }

  /** One turn: either the command was carried out, or the first pass ends before it. */
  lemma PassStep(cat: Catalogue, start: Slate, was: seq<Command>, now: seq<Command>, i: nat, next: seq<Command>)
    requires Passed(cat, start, was, now, i) && i < |was| == |now|
    requires next == now[i := Recorded(cat, After(cat, start, was, i), was[i])]
    requires InRange(Recorded(cat, After(cat, start, was, i), was[i]).value)
    ensures var here := After(cat, start, was, i);
      if Applies(cat, here, was[i]) then
        Passed(cat, start, was, next, i + 1) && After(cat, start, was, i + 1) == Apply(cat, here, was[i])
      else
        && Done(cat, start, was, 0) == i && Apply(cat, here, was[i]) == here
        && IsRecord(cat, start, was, next, i) && forall j :: 0 <= j < i ==> InRange(next[j].value)
  {
    hide Recorded, Settled, Got;
  }

  lemma PassEnds(cat: Catalogue, start: Slate, was: seq<Command>, now: seq<Command>)
    requires Passed(cat, start, was, now, |was|)
    ensures Done(cat, start, was, 0) == |was| && IsRecord(cat, start, was, now, |was|)
    ensures forall j :: 0 <= j < |was| ==> InRange(now[j].value)
  {
  }

  // ---------- the class ----------

  class SlateCommandInterface {
    const catalogue: Catalogue
    var slate: Slate

    constructor (catalogue: Catalogue, slate: Slate)
      ensures this.catalogue == catalogue && this.slate == slate
    {
      this.catalogue, this.slate := catalogue, slate;
    }

    /** Slate::store. */
    method Store(e: Element, v: Value) returns (ok: bool)
      modifies this
      ensures ok == Storable(catalogue, e, v)
      ensures slate == if ok then old(slate)[e.place := v] else old(slate)
    {
      if !e.mayWrite {
        return false;
      }
      if !e.hasValidator {
        slate := slate[e.place := v];
        return true;
      }
      if !catalogue.accepts(e.place, v) {
        return false;
      }
      slate := slate[e.place := v];
      return true;
    }

    /** set of an integer element. */
    method SetInt(e: Element, n: int) returns (ok: bool)
      requires IsInt64(n)
      modifies this
      ensures ok == Settled(catalogue, e, AsInt(n)).Some?
      ensures slate == if ok then old(slate)[e.place := Settled(catalogue, e, AsInt(n)).value] else old(slate)
    {
      match e.kind {
        case Bool | Int8 | Int16 | Int32 | Uint8 | Uint16 =>
          if n < Lowest(e.kind) || n > Highest(e.kind, catalogue.wideUlong) {
            return false;
          }
          ok := Store(e, IntValue(n));
        case Int64 =>
          ok := Store(e, IntValue(n));
        case Uint32 =>
          if n < Lowest(Int32) || n > Highest(Uint32, catalogue.wideUlong) {
            return false;
          }
          ok := Store(e, IntValue(if n < 0 then n + TWO_32 else n));
        case Ulong =>
          if !catalogue.wideUlong {
            if n < Lowest(Int32) || n > Highest(Uint32, catalogue.wideUlong) {
              return false;
            }
          }
          ok := Store(e, IntValue(if n < 0 then n + (if catalogue.wideUlong then TWO_64 else TWO_32) else n));
        case Uint64 =>
          ok := Store(e, IntValue(if n < 0 then n + TWO_64 else n));
        case _ =>
          ok := false;
      }
    }

    /** set of a floating-point element. */
    method SetDouble(e: Element, d: bv64) returns (ok: bool)
      modifies this
      ensures ok == Settled(catalogue, e, AsDbl(d)).Some?
      ensures slate == if ok then old(slate)[e.place := Settled(catalogue, e, AsDbl(d)).value] else old(slate)
    {
      hide FiniteDouble, FiniteFloat;
      match e.kind {
        case Double =>
          if !FiniteDouble(d) {
            return false;
          }
          ok := Store(e, DoubleValue(d));
        case Float =>
          var f := catalogue.narrow(d);
          if !FiniteFloat(f) {
            return false;
          }
          ok := Store(e, FloatValue(f));
        case _ =>
          ok := false;
      }
    }

    /** The dispatch on the type tag of a command. */
    method SetValue(e: Element, c: CommandValue) returns (ok: bool)
      requires InRange(c)
      modifies this
      ensures ok == Settled(catalogue, e, c).Some?
      ensures slate == if ok then old(slate)[e.place := Settled(catalogue, e, c).value] else old(slate)
    {
      match c {
        case AsInt(n) => ok := SetInt(e, n);
        case AsDbl(d) => ok := SetDouble(e, d);
        case InvalidType => ok := false;
      }
    }

    /** set by hash: the element must exist and must not be static. */
    method Set(hash: nat, c: CommandValue) returns (completed: bool, success: bool)
      requires InRange(c)
      modifies this
      ensures completed
      ensures success == RollsBack(catalogue, Command(hash, c))
      ensures slate == RollBack(catalogue, old(slate), Command(hash, c))
    {
      completed, success := true, false;
      if hash !in catalogue.elements {
        return;
      }
      if catalogue.elements[hash].place.isStatic {
        return;
      }
      success := SetValue(catalogue.elements[hash], c);
    }

    /** One command of the first pass: record the present value in the command, then set. */
    method Try(cmds: array<Command>, i: nat) returns (ok: bool)
      requires i < cmds.Length && WellTyped(catalogue, slate) && InRange(cmds[i].value)
      modifies this, cmds
      ensures ok == Applies(catalogue, old(slate), old(cmds[i]))
      ensures slate == Apply(catalogue, old(slate), old(cmds[i]))
      ensures cmds[i] == Recorded(catalogue, old(slate), old(cmds[i]))
      ensures forall j :: 0 <= j < cmds.Length && j != i ==> cmds[j] == old(cmds[j])
    {
      hide Stored;
      var command := cmds[i];
      if command.hash !in catalogue.elements {
        return false;
      }
      var e := catalogue.elements[command.hash];
      var present := Got(catalogue, e.kind, command.value, slate[e.place]);
      if present.None? {
        return false;
      }
      cmds[i] := command.(value := present.value);
      ok := SetValue(e, command.value);
    }

    /** The first pass, up to the first command that fails. */
    method FirstPass(cmds: array<Command>) returns (failedOn: nat)
      requires catalogue.Sound() && WellTyped(catalogue, slate) && AllInRange(cmds[..])
      modifies this, cmds
      ensures failedOn == Done(catalogue, old(slate), old(cmds[..]), 0)
      ensures slate == After(catalogue, old(slate), old(cmds[..]), failedOn)
      ensures IsRecord(catalogue, old(slate), old(cmds[..]), cmds[..], failedOn)
      ensures forall j :: 0 <= j < failedOn ==> InRange(cmds[j].value)
    {
      hide Apply, Applies, WellTyped, Recorded, InRange, Catalogue.Sound, Passed, Done, After, IsRecord;
      ghost var was, start := cmds[..], slate;
      failedOn := 0;
      PassStarts(catalogue, start, was);
      while failedOn < cmds.Length
        invariant failedOn <= cmds.Length
        invariant slate == After(catalogue, start, was, failedOn)
        invariant Passed(catalogue, start, was, cmds[..], failedOn)
      {
        ghost var now := cmds[..];
        AfterKeepsTypes(catalogue, start, was, failedOn);
        NextInRange(catalogue, start, was, now, failedOn);
        var ok := Try(cmds, failedOn);
        assert cmds[..] == now[failedOn := Recorded(catalogue, After(catalogue, start, was, failedOn), was[failedOn])];
        PassStep(catalogue, start, was, now, failedOn, cmds[..]);
        if !ok {
          break;
        }
        failedOn := failedOn + 1;
      }
      if failedOn == cmds.Length {
        PassEnds(catalogue, start, was, cmds[..]);
      }
    }

    /** The rollback, forwards, up to but not including the command that failed. */
    method RollbackPass(cmds: array<Command>, failedOn: nat) returns (successful: bool)
      requires failedOn <= cmds.Length
      requires forall j :: 0 <= j < failedOn ==> InRange(cmds[j].value)
      modifies this
      ensures slate == Rolled(catalogue, old(slate), cmds[..], failedOn)
      ensures successful == AllRollBack(catalogue, cmds[..], failedOn)
    {
      hide RollBack, RollsBack;
      successful := true;
      ghost var start := slate;
      for i := 0 to failedOn
        invariant slate == Rolled(catalogue, start, cmds[..], i)
        invariant successful == AllRollBack(catalogue, cmds[..], i)
      {
        var completed, success := Set(cmds[i].hash, cmds[i].value);
        SameCommand(cmds[i]);
        successful := successful && success && completed;
      }
    }

    /** set_multi_by_hash. */
    method SetMulti(cmds: array<Command>) returns (completed: bool, success: bool)
      requires catalogue.Sound() && WellTyped(catalogue, slate) && AllInRange(cmds[..])
      modifies this, cmds
      ensures var k := Done(catalogue, old(slate), old(cmds[..]), 0);
        && IsRecord(catalogue, old(slate), old(cmds[..]), cmds[..], k)
        && (success <==> k == cmds.Length)
        && (success ==> completed && slate == After(catalogue, old(slate), old(cmds[..]), k))
        && (!success ==> slate == Rolled(catalogue, After(catalogue, old(slate), old(cmds[..]), k), cmds[..], k))
        && (!success ==> completed == AllRollBack(catalogue, cmds[..], k))
      // all or nothing: exactly when, and what is enough for it
      ensures var k := Done(catalogue, old(slate), old(cmds[..]), 0);
        && Known(catalogue, old(cmds[..]), k)
        && (!success ==>
              ((completed && slate == old(slate)) <==> (Undoable(catalogue, old(slate), old(cmds[..]), k)
                                                       && NoEchoes(catalogue, old(slate), old(cmds[..]), k))))
      ensures !success && Restorable(catalogue, old(slate), old(cmds[..])) ==> completed && slate == old(slate)
      // no read-only element changes and no validator is overruled, whether the call fails or not
      ensures forall p :: p in old(slate) ==>
        p in slate && (slate[p] == old(slate)[p] || Licensed(catalogue, p, slate[p]))
    {
      hide After, Applies, IsRecord, Rolled, AllRollBack, WellTyped, Catalogue.Sound, Restorable, AllInRange,
           Undoable, NoEchoes, Known, Licensed;
      ghost var was, start := cmds[..], slate;
      var failedOn := FirstPass(cmds);
      ApplyingIsKnown(catalogue, start, was, failedOn);
      EverythingIsLicensed(catalogue, start, was, cmds[..], failedOn);
      if failedOn == cmds.Length {
        return true, true;
      }
      completed := RollbackPass(cmds, failedOn);
      success := false;
      AllOrNothingExactly(catalogue, start, was, cmds[..], failedOn);
      if Restorable(catalogue, start, was) {
        AllOrNothing(catalogue, start, was, cmds[..], failedOn);
      }
    }
  }

  lemma SameCommand(c: Command)
    ensures Command(c.hash, c.value) == c
  {
  }
}
