/**
 The memory map of the System 7 secure conformance DUT
 (conformance/src/dut/system7_secure_stack.rs): windows over four backing
 arrays, tried in a fixed order, with everything else left to the family map.
 */
module MemoryMap {
  import opened Octets
  import opened Wrappers

  const U16: nat := 0x1_0000

  const LINEAR_BASE: nat := 0x5000
  const READONLY_BASE: nat := 0x5100
  const WRITEONLY_BASE: nat := 0x5110
  const LEVEL2_BASE: nat := 0x5120
  const DENY_BASE: nat := 0x51D0
  const TOOL_BASE: nat := 0x51E0
  const LEVEL1_BASE: nat := 0x5200
  const USER_BASE: nat := 0x7FF0

  const LINEAR_SIZE: nat := 256
  const SMALL_SIZE: nat := 16
  const LEVEL2_SIZE: nat := 224
  const LEVEL1_SIZE: nat := 256
  const USER_SIZE: nat := 16

  datatype MemoryError = NotAccessible | WriteProtected | AccessDenied

  /** The caller: its access level, and what the 3FF/00C policy says of it in the present security mode. */
  datatype AccessContext = AccessContext(level: nat, toolRead: bool, toolWrite: bool)

  /** `data.len() as u16` truncates, the addition saturates. */
  function EndAddress(address: nat, len: nat): nat {
    Min(address + len % U16, U16 - 1)
  }

  predicate Holds(base: nat, size: nat, address: nat, end: nat) {
    base <= address && end <= base + size
  }

  datatype Window = Linear | ReadOnly | WriteOnly | Deny | Tool | Level2 | Level1 | User | Elsewhere

  /** The first window, in the order of the source, that holds the whole range. */
  function Route(address: nat, end: nat): Window {
    if Holds(LINEAR_BASE, LINEAR_SIZE, address, end) then Linear
    else if Holds(READONLY_BASE, SMALL_SIZE, address, end) then ReadOnly
    else if Holds(WRITEONLY_BASE, SMALL_SIZE, address, end) then WriteOnly
    else if Holds(DENY_BASE, SMALL_SIZE, address, end) then Deny
    else if Holds(TOOL_BASE, SMALL_SIZE, address, end) then Tool
    else if Holds(LEVEL2_BASE, LEVEL2_SIZE, address, end) then Level2
    else if Holds(LEVEL1_BASE, LEVEL1_SIZE, address, end) then Level1
    else if Holds(USER_BASE, USER_SIZE, address, end) then User
    else Elsewhere
  }

  predicate Straddles(base: nat, size: nat, address: nat, end: nat) {
    base <= address < base + size && base + size < end
  }

  predicate Within(octet: nat, base: nat, size: nat) {
    base <= octet < base + size
  }

  function PartlyProtected(address: nat, end: nat, writing: bool): Option<MemoryError> {
    if !(|| Straddles(LINEAR_BASE, LINEAR_SIZE, address, end)
         || Straddles(READONLY_BASE, SMALL_SIZE, address, end)
         || Straddles(WRITEONLY_BASE, SMALL_SIZE, address, end)
         || Straddles(LEVEL2_BASE, LEVEL2_SIZE, address, end)
         || Straddles(LEVEL1_BASE, LEVEL1_SIZE, address, end)
         || Straddles(USER_BASE, USER_SIZE, address, end)) then None
    else
      var tail := if end == 0 then 0 else end - 1;
      if (writing && (Within(address, READONLY_BASE, SMALL_SIZE) || Within(tail, READONLY_BASE, SMALL_SIZE)))
         || (!writing && (Within(address, WRITEONLY_BASE, SMALL_SIZE) || Within(tail, WRITEONLY_BASE, SMALL_SIZE)))
      then Some(WriteProtected)
      else Some(AccessDenied)
  }

  /** What an access comes to. `Panics` stands for the slice index the source would fail on. */
  datatype Verdict = Allowed | Computed | Dropped | Refused(error: MemoryError) | Family | Panics

  function Fits(base: nat, size: nat, address: nat, len: nat): Verdict {
    if base <= address && address + len <= base + size then Allowed else Panics
  }

  function Judge(address: nat, len: nat, writing: bool, ctx: AccessContext): Verdict {
    if address >= U16 then Refused(NotAccessible)
    else
      var end := EndAddress(address, len);
      var toolOpen := if writing then ctx.toolWrite else ctx.toolRead;
      match Route(address, end)
      case Linear => Fits(LINEAR_BASE, LINEAR_SIZE, address, len)
      case ReadOnly => if writing then Refused(WriteProtected) else Computed
      case WriteOnly => if writing then Dropped else Refused(WriteProtected)
      case Deny => Refused(AccessDenied)
      case Tool =>
        if toolOpen then Fits(LEVEL2_BASE, LEVEL2_SIZE, address, len) else Refused(AccessDenied)
      case Level2 => if ctx.level <= 2 then Fits(LEVEL2_BASE, LEVEL2_SIZE, address, len) else Refused(AccessDenied)
      case Level1 => if ctx.level <= 1 then Fits(LEVEL1_BASE, LEVEL1_SIZE, address, len) else Refused(AccessDenied)
      case User => Fits(USER_BASE, USER_SIZE, address, len)
      case Elsewhere =>
        match PartlyProtected(address, end, writing)
        case Some(e) => Refused(e)
        case None => Family
  }

  // ---------------------------------------------------------------------
  // One byte map
  // ---------------------------------------------------------------------

  type Memory = m: seq<Byte> | |m| == U16 witness seq(U16, i => 0)

  predicate Stored(a: nat) {
    || Within(a, LINEAR_BASE, LINEAR_SIZE)
    || Within(a, LEVEL2_BASE, LEVEL2_SIZE)
    || Within(a, LEVEL1_BASE, LEVEL1_SIZE)
    || Within(a, USER_BASE, USER_SIZE)
  }

  function Range(memory: Memory, address: nat, len: nat): seq<Byte> {
    seq(len, i requires 0 <= i < len => if address + i < U16 then memory[address + i] else 0)
  }

  /** The octets a read of the read-only window computes. */
  function Pattern(address: nat, len: nat): seq<Byte>
    requires READONLY_BASE <= address
  {
    seq(len, i requires 0 <= i < len => (address - READONLY_BASE + i) % 256)
  }

  function Patch(memory: Memory, address: nat, data: seq<Byte>): Memory {
    if address + |data| <= U16 then memory[..address] + data + memory[address + |data|..] else memory
  }

  datatype Op =
    | Read(address: nat, len: nat, ctx: AccessContext)
    | Write(address: nat, data: seq<Byte>, ctx: AccessContext)

  datatype Outcome = Data(octets: seq<Byte>) | Written(count: nat) | Failed(error: MemoryError) | FromFamily | Panic

  function OpVerdict(op: Op): Verdict {
    match op
    case Read(address, len, ctx) => Judge(address, len, false, ctx)
    case Write(address, data, ctx) => Judge(address, |data|, true, ctx)
  }

  /** An accepted write replaces its octets, and nothing else changes anything. */
  function After(memory: Memory, op: Op): Memory {
    if op.Write? && OpVerdict(op).Allowed? then Patch(memory, op.address, op.data) else memory
  }

  function Answer(memory: Memory, op: Op): Outcome {
    match OpVerdict(op)
    case Allowed => if op.Read? then Data(Range(memory, op.address, op.len)) else Written(|op.data|)
    case Computed => if op.Read? && READONLY_BASE <= op.address then Data(Pattern(op.address, op.len)) else Panic
    case Dropped => if op.Write? then Written(|op.data|) else Panic
    case Refused(error) => Failed(error)
    case Family => FromFamily
    case Panics => Panic
  }

  function AfterAll(memory: Memory, ops: seq<Op>): Memory {
    if ops == [] then memory else After(AfterAll(memory, DropLast(ops)), Last(ops))
  }

  function Answers(memory: Memory, ops: seq<Op>): seq<Outcome> {
    if ops == [] then []
    else Answers(memory, DropLast(ops)) + [Answer(AfterAll(memory, DropLast(ops)), Last(ops))]
  }

  // ---------------------------------------------------------------------
  // The four backing arrays
  // ---------------------------------------------------------------------

  method CopyIn(mem: array<Byte>, offset: nat, data: seq<Byte>)
    requires offset + |data| <= mem.Length
    modifies mem
    ensures forall i :: 0 <= i < mem.Length ==>
              mem[i] == if offset <= i < offset + |data| then data[i - offset] else old(mem[i])
  {
    forall i | 0 <= i < |data| {
      mem[offset + i] := data[i];
    }
  }

  class SecureSystem7State {
    const linear: array<Byte>
    const level2: array<Byte>
    const level1: array<Byte>
    const user: array<Byte>

    /** The power-on fills of a factory-fresh device. */
    constructor ()
      ensures Valid() && fresh(Arrays())
      ensures forall a :: 0 <= a < 0x1_0000 ==>
                Flat()[a] == if 0x5000 <= a < 0x5100 then 0x0F else if 0x5120 <= a < 0x5200 then 0xAA
                             else if 0x5200 <= a < 0x5300 || 0x7FF0 <= a < 0x8000 then 0xFF else 0
    {
      linear := new Byte[LINEAR_SIZE](_ => 0x0F);
      level2 := new Byte[LEVEL2_SIZE](_ => 0xAA);
      level1 := new Byte[LEVEL1_SIZE](_ => 0xFF);
      user := new Byte[USER_SIZE](_ => 0xFF);
    }

    ghost predicate Valid() {
      && linear.Length == LINEAR_SIZE && level2.Length == LEVEL2_SIZE
      && level1.Length == LEVEL1_SIZE && user.Length == USER_SIZE
      && linear != level1
    }

    function Arrays(): set<object> {
      {linear, level2, level1, user}
    }

    /** What the arrays hold for an address; zero outside the stored windows. */
    ghost function OctetAt(a: nat): Byte
      requires Valid()
      reads Arrays()
    {
      if Within(a, LINEAR_BASE, LINEAR_SIZE) then linear[a - LINEAR_BASE]
      else if Within(a, LEVEL2_BASE, LEVEL2_SIZE) then level2[a - LEVEL2_BASE]
      else if Within(a, LEVEL1_BASE, LEVEL1_SIZE) then level1[a - LEVEL1_BASE]
      else if Within(a, USER_BASE, USER_SIZE) then user[a - USER_BASE]
      else 0
    }

    /** The arrays as one byte map. */
    ghost function Flat(): Memory
      requires Valid()
      reads Arrays()
    {
      seq(U16, a requires 0 <= a < U16 && Valid() reads Arrays() => OctetAt(a))
    }

    method ReadArray(mem: array<Byte>, base: nat, address: nat, len: nat) returns (r: Outcome)
      requires Valid() && base <= address
      requires (mem == linear && base == LINEAR_BASE) || (mem == level2 && base == LEVEL2_BASE)
            || (mem == level1 && base == LEVEL1_BASE) || (mem == user && base == USER_BASE)
      ensures r == if address + len <= base + mem.Length then Data(Range(Flat(), address, len)) else Panic
    {
      var offset := address - base;
      if offset + len > mem.Length {
        return Panic;
      }
      r := Data(mem[offset..offset + len]);
      forall i | 0 <= i < len ensures mem[offset..offset + len][i] == Range(Flat(), address, len)[i] {
        assert Flat()[address + i] == OctetAt(address + i);
      }
    }

    method WriteArray(mem: array<Byte>, base: nat, address: nat, data: seq<Byte>) returns (r: Outcome)
      requires Valid() && base <= address
      requires (mem == linear && base == LINEAR_BASE) || (mem == level2 && base == LEVEL2_BASE)
            || (mem == level1 && base == LEVEL1_BASE) || (mem == user && base == USER_BASE)
      modifies mem
      ensures r == if address + |data| <= base + mem.Length then Written(|data|) else Panic
      ensures Flat() == if r.Written? then Patch(old(Flat()), address, data) else old(Flat())
    {
      var offset := address - base;
      if offset + |data| > mem.Length {
        return Panic;
      }
      CopyIn(mem, offset, data);
      r := Written(|data|);
      ghost var before := old(Flat());
      ghost var after := Patch(before, address, data);
      forall a | 0 <= a < U16 ensures Flat()[a] == after[a] {
        assert Flat()[a] == OctetAt(a) && before[a] == old(OctetAt(a));
      }
    }

    method ReadAt(address: nat, len: nat, ctx: AccessContext) returns (r: Outcome)
      requires Valid()
      ensures r == Answer(Flat(), Read(address, len, ctx))
    {
      if address >= U16 {
        return Failed(NotAccessible);
      }
      var end := EndAddress(address, len);
      match Route(address, end) {
        case Linear => r := ReadArray(linear, LINEAR_BASE, address, len);
        case ReadOnly => r := Data(Pattern(address, len));
        case WriteOnly => r := Failed(WriteProtected);
        case Deny => r := Failed(AccessDenied);
        case Tool =>
          if !ctx.toolRead {
            return Failed(AccessDenied);
          }
          r := ReadArray(level2, LEVEL2_BASE, address, len);
        case Level2 =>
          if !(ctx.level <= 2) {
            return Failed(AccessDenied);
          }
          r := ReadArray(level2, LEVEL2_BASE, address, len);
        case Level1 =>
          if !(ctx.level <= 1) {
            return Failed(AccessDenied);
          }
          r := ReadArray(level1, LEVEL1_BASE, address, len);
        case User => r := ReadArray(user, USER_BASE, address, len);
        case Elsewhere =>
          var e := PartlyProtected(address, end, false);
          r := if e.Some? then Failed(e.value) else FromFamily;
      }
    }

    method WriteAt(address: nat, data: seq<Byte>, ctx: AccessContext) returns (r: Outcome)
      requires Valid()
      modifies Arrays()
      ensures r == Answer(old(Flat()), Write(address, data, ctx))
      ensures Flat() == After(old(Flat()), Write(address, data, ctx))
    {
      if address >= U16 {
        return Failed(NotAccessible);
      }
      var end := EndAddress(address, |data|);
      match Route(address, end) {
        case Linear => r := WriteArray(linear, LINEAR_BASE, address, data);
        case ReadOnly => r := Failed(WriteProtected);
        case WriteOnly => r := Written(|data|);
        case Deny => r := Failed(AccessDenied);
        case Tool =>
          if !ctx.toolWrite {
            return Failed(AccessDenied);
          }
          r := WriteArray(level2, LEVEL2_BASE, address, data);
        case Level2 =>
          if !(ctx.level <= 2) {
            return Failed(AccessDenied);
          }
          r := WriteArray(level2, LEVEL2_BASE, address, data);
        case Level1 =>
          if !(ctx.level <= 1) {
            return Failed(AccessDenied);
          }
          r := WriteArray(level1, LEVEL1_BASE, address, data);
        case User => r := WriteArray(user, USER_BASE, address, data);
        case Elsewhere =>
          var e := PartlyProtected(address, end, true);
          r := if e.Some? then Failed(e.value) else FromFamily;
      }
    }

    /** Over any accesses the arrays answer as the one byte map does. */
    method Serve(ops: seq<Op>) returns (answers: seq<Outcome>)
      requires Valid()
      modifies Arrays()
      ensures answers == Answers(old(Flat()), ops) && Flat() == AfterAll(old(Flat()), ops)
    {
      answers := [];
      ghost var memory := Flat();
      for k := 0 to |ops|
        invariant answers == Answers(memory, ops[..k]) && Flat() == AfterAll(memory, ops[..k])
      {
        assert DropLast(ops[..k + 1]) == ops[..k];
        var r;
        match ops[k] {
          case Read(address, len, ctx) => r := ReadAt(address, len, ctx);
          case Write(address, data, ctx) => r := WriteAt(address, data, ctx);
        }
        answers := answers + [r];
      }
      assert ops[..|ops|] == ops;
    }
  }

  // ---------------------------------------------------------------------
  // What the windows promise
  // ---------------------------------------------------------------------

  predicate InTestRegion(a: nat) {
    Within(a, LINEAR_BASE, 0x300) || Within(a, USER_BASE, USER_SIZE)
  }

  /** No access that starts in a test region reaches the family map, however long it is. */
  lemma TestRegionsNeverDelegate(address: nat, len: nat, writing: bool, ctx: AccessContext)
    requires InTestRegion(address)
    ensures Judge(address, len, writing, ctx) != Family
  {
  }

  /** A range wholly inside the 000/000 window is refused, whoever asks. */
  lemma DenyWindowNeverSucceeds(address: nat, len: nat, writing: bool, ctx: AccessContext)
    requires DENY_BASE <= address && address + len <= DENY_BASE + SMALL_SIZE
    ensures Judge(address, len, writing, ctx) == Refused(AccessDenied)
  {
  }

  /** A range that only overlaps the 000/000 window is judged by the level-2 block around it: the
      window's policy is not applied to the octets of it that such a range takes in. */
  lemma DenyWindowOverlap(address: nat, len: nat, writing: bool, ctx: AccessContext)
    requires 0 < len < U16 && address < DENY_BASE + SMALL_SIZE && DENY_BASE < address + len
    ensures Judge(address, len, writing, ctx) in {Allowed, Computed, Dropped}
            <==> && ctx.level <= 2
                 && Holds(LEVEL2_BASE, LEVEL2_SIZE, address, address + len)
                 && !Holds(DENY_BASE, SMALL_SIZE, address, address + len)
  {
    SucceedsExactlyWhen(address, len, writing, ctx);
  }

  /** Two octets at 51CFh, the second of them in the window, are read with level 2. */
  lemma DenyWindowReached(ctx: AccessContext)
    requires ctx.level <= 2
    ensures Judge(DENY_BASE - 1, 2, false, ctx).Allowed?
  {
    DenyWindowOverlap(DENY_BASE - 1, 2, false, ctx);
  }

  /** The six windows with memory, a pattern or a drain behind them. */
  predicate InOneWindow(address: nat, len: nat, window: Window) {
    match window
    case Linear => Holds(LINEAR_BASE, LINEAR_SIZE, address, address + len)
    case ReadOnly => Holds(READONLY_BASE, SMALL_SIZE, address, address + len)
    case WriteOnly => Holds(WRITEONLY_BASE, SMALL_SIZE, address, address + len)
    case Deny => Holds(DENY_BASE, SMALL_SIZE, address, address + len)
    case Tool => Holds(TOOL_BASE, SMALL_SIZE, address, address + len)
    case Level2 => Holds(LEVEL2_BASE, LEVEL2_SIZE, address, address + len)
    case Level1 => Holds(LEVEL1_BASE, LEVEL1_SIZE, address, address + len)
    case User => Holds(USER_BASE, USER_SIZE, address, address + len)
    case Elsewhere => true
  }

  /** Below 65536 octets the truncated and saturated end address decides as the true one would. */
  lemma ShortAccessesRouteTruly(address: nat, len: nat)
    requires address < U16 && len < U16
    ensures Route(address, EndAddress(address, len)) == Route(address, address + len)
    ensures InOneWindow(address, len, Route(address, EndAddress(address, len)))
  {
  }

  /** Below 65536 octets nothing panics, and an accepted access stays inside one stored window. */
  lemma ShortAccessesStayInside(address: nat, len: nat, writing: bool, ctx: AccessContext)
    requires len < U16
    ensures Judge(address, len, writing, ctx) != Panics
    ensures Judge(address, len, writing, ctx).Allowed? ==>
              address + len <= U16 && forall a :: address <= a < address + len ==> Stored(a)
    ensures Judge(address, len, writing, ctx).Computed? ==>
              && !writing
              && forall i :: 0 <= i < len ==> Pattern(address, len)[i] == address + i - 0x5100 < 16
    ensures Judge(address, len, writing, ctx).Dropped? ==>
              writing && forall a :: address <= a < address + len ==> !Stored(a)
  {
  }

  /** The source panics exactly when 65536 or more octets are passed and the access its truncated
      length stands for would reach stored memory: the slice then ends out of range. */
  lemma PanicsExactlyWhen(address: nat, len: nat, writing: bool, ctx: AccessContext)
    ensures Judge(address, len, writing, ctx) == Panics
            <==> len >= 0x1_0000 && Judge(address, len % 0x1_0000, writing, ctx).Allowed?
    ensures len >= 0x1_0000 && Judge(address, len, writing, ctx) != Panics
            ==> Judge(address, len, writing, ctx) == Judge(address, len % 0x1_0000, writing, ctx)
  {
    if address < U16 {
      assert len % U16 % U16 == len % U16 && EndAddress(address, len) == EndAddress(address, len % U16);
    }
  }

  /** The shortest such access to the first window. */
  lemma LongAccessPanics(ctx: AccessContext)
    ensures Judge(LINEAR_BASE, U16, true, ctx) == Panics
  {
  }

  /** All octets of a range lie from `low` up to `high`. */
  predicate Inside(address: nat, len: nat, low: nat, high: nat) {
    low <= address && address + len <= high
  }

  /** Exactly when an access of one or more octets succeeds. */
  predicate MaySucceed(address: nat, len: nat, writing: bool, ctx: AccessContext) {
    || Inside(address, len, 0x5000, 0x5100)
    || (if writing then Inside(address, len, 0x5110, 0x5120) else Inside(address, len, 0x5100, 0x5110))
    || (Inside(address, len, 0x51E0, 0x51F0) && (if writing then ctx.toolWrite else ctx.toolRead))
    || (&& Inside(address, len, 0x5120, 0x5200)
        && !Inside(address, len, 0x51E0, 0x51F0)
        && !Inside(address, len, 0x51D0, 0x51E0)
        && ctx.level <= 2)
    || (Inside(address, len, 0x5200, 0x5300) && ctx.level <= 1)
    || Inside(address, len, 0x7FF0, 0x8000)
  }

  lemma SucceedsExactlyWhen(address: nat, len: nat, writing: bool, ctx: AccessContext)
    requires 0 < len < U16
    ensures Judge(address, len, writing, ctx) in {Allowed, Computed, Dropped}
            <==> MaySucceed(address, len, writing, ctx)
  {
  }

  /** What an access of one or more octets that lies wholly in a window comes to: the error of each refusal included. */
  lemma JudgedByWindow(address: nat, len: nat, writing: bool, ctx: AccessContext)
    requires 0 < len < 0x1_0000
    ensures var verdict := Judge(address, len, writing, ctx);
            var tool := if writing then ctx.toolWrite else ctx.toolRead;
            && (Inside(address, len, 0x5000, 0x5100) ==> verdict == Allowed)
            && (Inside(address, len, 0x5100, 0x5110) ==>
                  verdict == if writing then Refused(WriteProtected) else Computed)
            && (Inside(address, len, 0x5110, 0x5120) ==>
                  verdict == if writing then Dropped else Refused(WriteProtected))
            && (Inside(address, len, 0x51D0, 0x51E0) ==> verdict == Refused(AccessDenied))
            && (Inside(address, len, 0x51E0, 0x51F0) ==> verdict == if tool then Allowed else Refused(AccessDenied))
            && (Inside(address, len, 0x5120, 0x5200) && !Inside(address, len, 0x51D0, 0x51E0)
                && !Inside(address, len, 0x51E0, 0x51F0) ==>
                  verdict == if ctx.level <= 2 then Allowed else Refused(AccessDenied))
            && (Inside(address, len, 0x5200, 0x5300) ==>
                  verdict == if ctx.level <= 1 then Allowed else Refused(AccessDenied))
            && (Inside(address, len, 0x7FF0, 0x8000) ==> verdict == Allowed)
  {
  }

  /** Whether one of the windows holds the whole range. */
  predicate InSomeWindow(address: nat, len: nat) {
    || Inside(address, len, 0x5000, 0x5100) || Inside(address, len, 0x5100, 0x5110)
    || Inside(address, len, 0x5110, 0x5120) || Inside(address, len, 0x5120, 0x5200)
    || Inside(address, len, 0x5200, 0x5300) || Inside(address, len, 0x7FF0, 0x8000)
  }

  /** Whether the first or the last octet lies from `low` up to `high`. */
  predicate EndsIn(address: nat, len: nat, low: nat, high: nat)
    requires len > 0
  {
    low <= address < high || low <= address + len - 1 < high
  }

  /** Outside 65536 octets nothing is accessible. A range no window holds is refused if it starts in a
      test region, as protected when an end of it lies where the access is not supported, and it
      goes to the family map otherwise. */
  lemma JudgedElsewhere(address: nat, len: nat, writing: bool, ctx: AccessContext)
    requires 0 < len < 0x1_0000 && !InSomeWindow(address, len)
    ensures var verdict := Judge(address, len, writing, ctx);
            if address >= 0x1_0000 then verdict == Refused(NotAccessible)
            else if 0x5000 <= address < 0x5300 || 0x7FF0 <= address < 0x8000 then
              verdict == Refused(if writing && EndsIn(address, len, 0x5100, 0x5110) then WriteProtected
                                 else if !writing && EndsIn(address, len, 0x5110, 0x5120) then WriteProtected
                                 else AccessDenied)
            else verdict == Family
  {
  }

  /** The family map is asked exactly about addresses below 65536 from which no window holds or
      begins to hold the range. */
  lemma FamilyExactlyWhen(address: nat, len: nat, writing: bool, ctx: AccessContext)
    requires 0 < len < 0x1_0000
    ensures Judge(address, len, writing, ctx) == Family
            <==> address < 0x1_0000 && !(0x5000 <= address < 0x5300) && !(0x7FF0 <= address < 0x8000)
  {
    if InSomeWindow(address, len) {
      JudgedByWindow(address, len, writing, ctx);
    } else {
      JudgedElsewhere(address, len, writing, ctx);
    }
  }

  /** An empty range belongs to the first window it stands in or just behind. */
  lemma EmptyAccess(address: nat, writing: bool, ctx: AccessContext)
    ensures Judge(address, 0, writing, ctx)
            == if address >= 0x1_0000 then Refused(NotAccessible)
               else if 0x5000 <= address <= 0x5100 || 0x7FF0 <= address <= 0x8000 then Allowed
               else if 0x5100 < address <= 0x5110 then (if writing then Refused(WriteProtected) else Computed)
               else if 0x5110 < address <= 0x5120 then (if writing then Dropped else Refused(WriteProtected))
               else if 0x51D0 <= address <= 0x51E0 then Refused(AccessDenied)
               else if 0x51E0 < address <= 0x51F0 then
                 (if (if writing then ctx.toolWrite else ctx.toolRead) then Allowed else Refused(AccessDenied))
               else if 0x5120 < address <= 0x5200 then (if ctx.level <= 2 then Allowed else Refused(AccessDenied))
               else if 0x5200 < address <= 0x5300 then (if ctx.level <= 1 then Allowed else Refused(AccessDenied))
               else Family
  {
  }

  /** What the caller sees of a verdict. */
  lemma AnswerFollows(memory: Memory, op: Op, error: MemoryError)
    ensures OpVerdict(op) == Refused(error) ==> Answer(memory, op) == Failed(error)
    ensures OpVerdict(op) == Family ==> Answer(memory, op) == FromFamily
    ensures OpVerdict(op) == Panics ==> Answer(memory, op) == Panic
    ensures op.Write? && OpVerdict(op) in {Allowed, Dropped} ==> Answer(memory, op) == Written(|op.data|)
    ensures op.Read? && OpVerdict(op) == Computed ==>
              var answer := Answer(memory, op);
              && answer.Data? && |answer.octets| == op.len && 0x5100 <= op.address
              && forall i :: 0 <= i < op.len ==> answer.octets[i] == (op.address - 0x5100 + i) % 256
    ensures After(memory, op) != memory ==> op.Write? && OpVerdict(op) == Allowed
  {
  }

  // ---------------------------------------------------------------------
  // Reads return what was written
  // ---------------------------------------------------------------------

  predicate Touches(op: Op, a: nat) {
    op.Write? && OpVerdict(op).Allowed? && op.address <= a < op.address + |op.data|
  }

  predicate ShortOp(op: Op) {
    op.Write? ==> |op.data| < U16
  }

  /** The octet at an address is the one the last accepted write there put, or the one from the start. */
  function LastWritten(memory: Memory, ops: seq<Op>, a: nat): Byte
    requires a < U16
  {
    if ops == [] then memory[a]
    else if Touches(Last(ops), a) then Last(ops).data[a - Last(ops).address]
    else LastWritten(memory, DropLast(ops), a)
  }

  lemma {:induction false} MemoryIsLastWritten(memory: Memory, ops: seq<Op>, a: nat)
    requires a < U16 && forall k :: 0 <= k < |ops| ==> ShortOp(ops[k])
    ensures AfterAll(memory, ops)[a] == LastWritten(memory, ops, a)
  {
    if ops != [] {
      MemoryIsLastWritten(memory, DropLast(ops), a);
      var op := Last(ops);
      assert op == ops[|ops| - 1];
      if op.Write? {
        ShortAccessesStayInside(op.address, |op.data|, true, op.ctx);
      }
    }
  }

  /** Every permitted read of stored memory returns, octet by octet, what was last written there. */
  lemma ReadsReturnLastWritten(memory: Memory, ops: seq<Op>, address: nat, len: nat, ctx: AccessContext)
    requires len < U16 && forall k :: 0 <= k < |ops| ==> ShortOp(ops[k])
    requires Judge(address, len, false, ctx).Allowed?
    ensures var r := Answer(AfterAll(memory, ops), Read(address, len, ctx));
            && r.Data? && |r.octets| == len
            && forall i :: 0 <= i < len ==> address + i < U16 && r.octets[i] == LastWritten(memory, ops, address + i)
  {
    ShortAccessesStayInside(address, len, false, ctx);
    forall i | 0 <= i < len
      ensures Range(AfterAll(memory, ops), address, len)[i] == LastWritten(memory, ops, address + i)
    {
      MemoryIsLastWritten(memory, ops, address + i);
    }
  }
}
