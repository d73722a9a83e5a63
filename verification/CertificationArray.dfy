/**
 The long writable array of the certification object
 (conformance/src/dut/fixture_common.rs) under the shared array write rules
 (crates/zweidraehte-proto/src/properties.rs): a fixed buffer and a length that
 must act as a plain sequence.
 */
module CertificationArray {
  import opened Octets
  import opened Wrappers

  const CAPACITY: nat := 245
  const U16_MAX: nat := 0xFFFF

  datatype PropertyError = TypeMismatch | InvalidElementCount | InvalidStartIndex | BufferTooSmall

  datatype Reply<T> = Done(value: T) | Refused(error: PropertyError)

  // ---------------------------------------------------------------------
  // The plain sequence
  // ---------------------------------------------------------------------

  function Zeros(n: nat): seq<Byte> {
    seq(n, i => 0)
  }

  /** Truncated when shrunk, zero-filled when grown. */
  function Resized(elements: seq<Byte>, count: nat): seq<Byte> {
    if count <= |elements| then elements[..count] else elements + Zeros(count - |elements|)
  }

  /** `data` put at `start`, growing the sequence as far as needed. */
  function Overwritten(elements: seq<Byte>, start: nat, data: seq<Byte>): seq<Byte> {
    var grown := Resized(elements, Max(|elements|, start + |data|));
    grown[..start] + data + grown[start + |data|..]
  }

  function Max(a: nat, b: nat): nat {
    if a >= b then a else b
  }

  function CountFrom(high: Byte, low: Byte): nat {
    high * 256 + low
  }

  /** A property write: element zero sets the count, any other index writes from there on. */
  function Write(elements: seq<Byte>, startIndex: nat, data: seq<Byte>): (Reply<nat>, seq<Byte>) {
    if startIndex == 0 then
      if |data| != 2 then (Refused(TypeMismatch), elements)
      else if CountFrom(data[0], data[1]) > CAPACITY then (Refused(InvalidElementCount), elements)
      else (Done(2), Resized(elements, CountFrom(data[0], data[1])))
    else if data == [] then (Refused(TypeMismatch), elements)
    else if |data| > U16_MAX then (Refused(InvalidElementCount), elements)
    else if startIndex - 1 + |data| > CAPACITY then (Refused(InvalidStartIndex), elements)
    else (Done(|data|), Overwritten(elements, startIndex - 1, data))
  }

  /** A property read into a buffer of `room` octets: index zero reads the count, any other a clamped slice. */
  function Read(elements: seq<Byte>, startIndex: nat, count: nat, room: nat): Reply<seq<Byte>> {
    if startIndex == 0 then
      if room < 2 then Refused(BufferTooSmall)
      else Done([(|elements| / 256) % 256, |elements| % 256])
    else if count == 0 then Refused(InvalidElementCount)
    else if startIndex - 1 >= |elements| then Refused(InvalidStartIndex)
    else
      var slice := elements[startIndex - 1..Min(startIndex - 1 + count, |elements|)];
      if room < |slice| then Refused(BufferTooSmall) else Done(slice)
  }

  /** A buffer with `data` copied in at `start`. */
  function Put(buffer: seq<Byte>, start: nat, data: seq<Byte>): seq<Byte>
    requires start + |data| <= |buffer|
  {
    buffer[..start] + data + buffer[start + |data|..]
  }

  predicate ZeroBetween(buffer: seq<Byte>, from: nat, to: nat)
    requires to <= |buffer|
  {
    forall i :: from <= i < to ==> buffer[i] == 0
  }

  lemma SliceOfPrefix<T>(s: seq<T>, len: nat, start: nat, end: nat)
    requires start <= end <= len <= |s|
    ensures s[..len][start..end] == s[start..end]
  {
    assert s[..len][..end] == s[..end];
  }

  /** Over a zero tail, growing is looking further. */
  lemma GrownIsPrefix(buffer: seq<Byte>, len: nat, count: nat)
    requires len <= count <= |buffer| && ZeroBetween(buffer, len, |buffer|)
    ensures Resized(buffer[..len], count) == buffer[..count]
  {
  }

  lemma OverwrittenIsPut(buffer: seq<Byte>, len: nat, start: nat, data: seq<Byte>)
    requires len <= |buffer| && start + |data| <= |buffer| && ZeroBetween(buffer, len, |buffer|)
    ensures Overwritten(buffer[..len], start, data) == Put(buffer, start, data)[..Max(len, start + |data|)]
  {
    GrownIsPrefix(buffer, len, Max(len, start + |data|));
  }

  lemma PutKeepsRest(buffer: seq<Byte>, start: nat, data: seq<Byte>, from: nat)
    requires start + |data| <= from <= |buffer|
    ensures forall to :: from <= to <= |buffer| ==>
              (ZeroBetween(Put(buffer, start, data), from, to) <==> ZeroBetween(buffer, from, to))
  {
    assert forall i :: from <= i < |buffer| ==> Put(buffer, start, data)[i] == buffer[i];
  }

  /** Writing into a buffer whose tail is zero is writing into the sequence it stands for. */
  lemma PutRefines(buffer: seq<Byte>, len: nat, start: nat, data: seq<Byte>, count: nat)
    requires len <= |buffer| && start + |data| <= count <= |buffer| && ZeroBetween(buffer, len, |buffer|)
    ensures Put(buffer, start, data)[..count] == Resized(Overwritten(buffer[..len], start, data), count)
    ensures ZeroBetween(Put(buffer, start, data), count, |buffer|) <==> ZeroBetween(buffer, count, len)
  {
    var end, put := Max(len, start + |data|), Put(buffer, start, data);
    OverwrittenIsPut(buffer, len, start, data);
    PutKeepsRest(buffer, start, data, end);
    PutKeepsRest(buffer, start, data, count);
    if count <= end {
      assert put[..end][..count] == put[..count];
    } else {
      GrownIsPrefix(put, end, count);
    }
  }

  /** A buffer with everything from `count` on set to zero. */
  function Cleared(buffer: seq<Byte>, count: nat): seq<Byte>
    requires count <= |buffer|
  {
    buffer[..count] + Zeros(|buffer| - count)
  }

  // ---------------------------------------------------------------------
  // Buffer and length
  // ---------------------------------------------------------------------

  class CertificationLongArray {
    const storage: array<Byte>
    var len: nat

    /** The array starts out full. */
    constructor ()
      ensures Valid() && fresh(storage) && Elements() == Zeros(CAPACITY) && TailIsZero()
    {
      storage := new Byte[CAPACITY](_ => 0);
      len := CAPACITY;
    }

    ghost predicate Valid()
      reads this
    {
      storage.Length == CAPACITY && len <= CAPACITY
    }

    ghost function Elements(): seq<Byte>
      requires Valid()
      reads this, storage
    {
      storage[..len]
    }

    /** Every octet past the length is zero. */
    ghost predicate TailIsZero()
      requires Valid()
      reads this, storage
    {
      forall i :: len <= i < CAPACITY ==> storage[i] == 0
    }

    method SetElementCount(count: nat)
      requires Valid() && count <= CAPACITY
      modifies this, storage
      ensures Valid() && TailIsZero() && len == count && storage[..] == Cleared(old(storage[..]), count)
      ensures old(TailIsZero()) ==> Elements() == Resized(old(Elements()), count)
    {
      forall i | count <= i < CAPACITY {
        storage[i] := 0;
      }
      len := count;
    }

    /** Copy `data` in at `start` and take over the resulting count as given. */
    method WriteElementRange(start: nat, data: seq<Byte>, resultingCount: nat)
      requires Valid() && start + |data| <= resultingCount <= CAPACITY
      modifies this, storage
      ensures Valid() && len == resultingCount
      ensures storage[..] == Put(old(storage[..]), start, data)
      ensures old(TailIsZero()) ==>
                Elements() == Resized(Overwritten(old(Elements()), start, data), resultingCount)
      // A zero tail is kept exactly when the count does not expose octets it leaves behind.
      ensures old(TailIsZero()) ==>
                (TailIsZero() <==> ZeroBetween(old(storage[..]), resultingCount, old(len)))
    {
      forall i | 0 <= i < |data| {
        storage[start + i] := data[i];
      }
      len := resultingCount;
      ghost var before, after := old(storage[..]), storage[..];
      assert after == Put(before, start, data);
      assert forall i :: resultingCount <= i < CAPACITY ==> storage[i] == after[i] == before[i];
      if old(TailIsZero()) {
        assert forall i :: old(len) <= i < CAPACITY ==> before[i] == old(storage[i]);
        PutRefines(before, old(len), start, data, resultingCount);
      }
    }

    /** `write_property_value` with elements of one octet. */
    method WritePropertyValue(startIndex: nat, data: seq<Byte>) returns (r: Reply<nat>)
      requires Valid() && TailIsZero() && startIndex <= U16_MAX
      modifies this, storage
      ensures Valid() && TailIsZero()
      ensures (r, Elements()) == Write(old(Elements()), startIndex, data)
    {
      if startIndex == 0 {
        if |data| != 2 {
          return Refused(TypeMismatch);
        }
        var count := CountFrom(data[0], data[1]);
        if count > CAPACITY {
          return Refused(InvalidElementCount);
        }
        SetElementCount(count);
        return Done(|data|);
      }
      if data == [] {
        return Refused(TypeMismatch);
      }
      if |data| > U16_MAX {
        return Refused(InvalidElementCount);
      }
      var start := startIndex - 1;
      var end := start + |data|;
      if end > U16_MAX {
        return Refused(InvalidStartIndex);
      }
      if end > CAPACITY {
        return Refused(InvalidStartIndex);
      }
      WriteElementRange(start, data, Max(len, end));
      assert Resized(Overwritten(old(Elements()), start, data), Max(old(len), end))
          == Overwritten(old(Elements()), start, data);
      return Done(|data|);
    }

    method ReadLongArray(startIndex: nat, count: nat, room: nat) returns (r: Reply<seq<Byte>>)
      requires Valid()
      ensures r == Read(Elements(), startIndex, count, room)
    {
      if startIndex == 0 {
        if room < 2 {
          return Refused(BufferTooSmall);
        }
        return Done([(len / 256) % 256, len % 256]);
      }
      if count == 0 {
        return Refused(InvalidElementCount);
      }
      var start := startIndex - 1;
      if start >= len {
        return Refused(InvalidStartIndex);
      }
      var end := Min(start + count, len);
      if room < end - start {
        return Refused(BufferTooSmall);
      }
      SliceOfPrefix(storage[..], len, start, end);
      assert storage[..][start..end] == storage[start..end];
      return Done(storage[start..end]);
    }

    /** Over any property writes the array answers as the plain sequence does, and the tail stays zero. */
    method Serve(ops: seq<Op>) returns (answers: seq<Answer>)
      requires Valid() && TailIsZero() && forall k :: 0 <= k < |ops| ==> ops[k].startIndex <= U16_MAX
      modifies this, storage
      ensures Valid() && TailIsZero()
      ensures answers == Answers(old(Elements()), ops) && Elements() == AfterAll(old(Elements()), ops)
    {
      answers := [];
      ghost var elements := Elements();
      for k := 0 to |ops|
        invariant Valid() && TailIsZero()
        invariant answers == Answers(elements, ops[..k]) && Elements() == AfterAll(elements, ops[..k])
      {
        assert DropLast(ops[..k + 1]) == ops[..k];
        match ops[k] {
          case WriteOp(startIndex, data) =>
            var r := WritePropertyValue(startIndex, data);
            answers := answers + [Wrote(r)];
          case ReadOp(startIndex, count, room) =>
            var r := ReadLongArray(startIndex, count, room);
            answers := answers + [DidRead(r)];
        }
      }
      assert ops[..|ops|] == ops;
    }

    /** Over any raw calls the fields are what the calls make of a buffer and a length. */
    method ServeRaw(ops: seq<RawOp>)
      requires Valid() && AllAdmissible(ops)
      modifies this, storage
      ensures Valid() && Buffer(storage[..], len) == RawAfterAll(old(Buffer(storage[..], len)), ops)
    {
      ghost var start := Buffer(storage[..], len);
      for k := 0 to |ops|
        invariant Valid() && Buffer(storage[..], len) == RawAfterAll(start, ops[..k])
      {
        assert DropLast(ops[..k + 1]) == ops[..k] && Admissible(ops[k]);
        match ops[k] {
          case SetCount(count) => SetElementCount(count);
          case WriteRange(from, data, count) => WriteElementRange(from, data, count);
        }
      }
      assert ops[..|ops|] == ops;
    }
  }

  datatype Op = WriteOp(startIndex: nat, data: seq<Byte>) | ReadOp(startIndex: nat, count: nat, room: nat)

  datatype Answer = Wrote(reply: Reply<nat>) | DidRead(reply_: Reply<seq<Byte>>)

  function After(elements: seq<Byte>, op: Op): seq<Byte> {
    match op
    case WriteOp(startIndex, data) => Write(elements, startIndex, data).1
    case ReadOp(_, _, _) => elements
  }

  function AnswerTo(elements: seq<Byte>, op: Op): Answer {
    match op
    case WriteOp(startIndex, data) => Wrote(Write(elements, startIndex, data).0)
    case ReadOp(startIndex, count, room) => DidRead(Read(elements, startIndex, count, room))
  }

  function AfterAll(elements: seq<Byte>, ops: seq<Op>): seq<Byte> {
    if ops == [] then elements else After(AfterAll(elements, DropLast(ops)), Last(ops))
  }

  function Answers(elements: seq<Byte>, ops: seq<Op>): seq<Answer> {
    if ops == [] then []
    else Answers(elements, DropLast(ops)) + [AnswerTo(AfterAll(elements, DropLast(ops)), Last(ops))]
  }

  // ---------------------------------------------------------------------
  // Reads after writes
  // ---------------------------------------------------------------------

  /** Which writes are refused, and as what. A refused write changes nothing. */
  lemma WriteRefusals(elements: seq<Byte>, startIndex: nat, data: seq<Byte>)
    ensures Write(elements, startIndex, data).0
            == if startIndex == 0 then
                 (if |data| != 2 then Refused(TypeMismatch)
                  else if (data[0] as int) * 256 + data[1] > 245 then Refused(InvalidElementCount) else Done(2))
               else if data == [] then Refused(TypeMismatch)
               else if |data| > 65535 then Refused(InvalidElementCount)
               else if startIndex + |data| > 246 then Refused(InvalidStartIndex)
               else Done(|data|)
    ensures Write(elements, startIndex, data).0.Refused? ==> Write(elements, startIndex, data).1 == elements
  {
  }

  /** A count that was written is the count: the octets written are read back, the elements up to it
      are kept and those it adds are zero. */
  lemma CountReadsBack(elements: seq<Byte>, high: Byte, low: Byte, count: nat, room: nat)
    requires Write(elements, 0, [high, low]).0.Done?
    ensures var after := Write(elements, 0, [high, low]).1;
            && |after| == (high as int) * 256 + low
            && (forall i :: 0 <= i < |after| ==> after[i] == if i < |elements| then elements[i] else 0)
            && Read(after, 0, count, room) == if room < 2 then Refused(BufferTooSmall) else Done([high, low])
  {
    var counted := (high as int) * 256 + low;
    assert counted / 256 == high && counted % 256 == low;
  }

  /** Elements that were written are read back where they were put; all others are as before,
      and a gap in front of them is zero. */
  lemma DataReadsBack(elements: seq<Byte>, startIndex: nat, data: seq<Byte>, room: nat)
    requires startIndex > 0 && Write(elements, startIndex, data).0.Done? && |data| <= room
    ensures var after := Write(elements, startIndex, data).1;
            && |after| == Max(|elements|, startIndex - 1 + |data|)
            && Read(after, startIndex, |data|, room) == Done(data)
            && (forall i :: 0 <= i < |after| && !(startIndex - 1 <= i < startIndex - 1 + |data|) ==>
                  after[i] == if i < |elements| then elements[i] else 0)
  {
    var after := Write(elements, startIndex, data).1;
    assert after[startIndex - 1..startIndex - 1 + |data|] == data;
  }

  /** What a read of elements returns: as many of those asked for as there are. */
  lemma ReadIs(elements: seq<Byte>, startIndex: nat, count: nat, room: nat)
    requires startIndex > 0
    ensures var r := Read(elements, startIndex, count, room);
            if count == 0 then r == Refused(InvalidElementCount)
            else if startIndex > |elements| then r == Refused(InvalidStartIndex)
            else
              var n := Min(count, |elements| + 1 - startIndex);
              if room < n then r == Refused(BufferTooSmall)
              else r.Done? && |r.value| == n && forall i :: 0 <= i < n ==> r.value[i] == elements[startIndex - 1 + i]
  {
  }

  /** A run never takes the array past its buffer, and its count always fits one octet. */
  lemma {:induction false} CountStays(elements: seq<Byte>, ops: seq<Op>, room: nat)
    requires |elements| <= 245 && room >= 2
    ensures |AfterAll(elements, ops)| <= 245
    ensures Read(AfterAll(elements, ops), 0, 1, room) == Done([0, |AfterAll(elements, ops)|])
  {
    if ops != [] {
      CountStays(elements, DropLast(ops), room);
    }
  }

  // ---------------------------------------------------------------------
  // Raw calls
  // ---------------------------------------------------------------------

  /** The two calls of the backend, as the shared write rules make them. */
  datatype RawOp = SetCount(count: nat) | WriteRange(start: nat, data: seq<Byte>, resultingCount: nat)

  datatype Buffer = Buffer(storage: seq<Byte>, len: nat)

  /** The resulting count covers the written end and the buffer covers the count. */
  predicate Admissible(op: RawOp) {
    match op
    case SetCount(count) => count <= CAPACITY
    case WriteRange(start, data, resultingCount) => start + |data| <= resultingCount <= CAPACITY
  }

  predicate AllAdmissible(ops: seq<RawOp>) {
    forall k :: 0 <= k < |ops| ==> Admissible(ops[k])
  }

  predicate IsBuffer(b: Buffer) {
    |b.storage| == CAPACITY && b.len <= CAPACITY
  }

  predicate ZeroTail(b: Buffer)
    requires IsBuffer(b)
  {
    ZeroBetween(b.storage, b.len, CAPACITY)
  }

  function Shown(b: Buffer): seq<Byte>
    requires IsBuffer(b)
  {
    b.storage[..b.len]
  }

  function RawAfter(b: Buffer, op: RawOp): (r: Buffer)
    requires IsBuffer(b) && Admissible(op)
    ensures IsBuffer(r)
  {
    match op
    case SetCount(count) => Buffer(Cleared(b.storage, count), count)
    case WriteRange(start, data, resultingCount) => Buffer(Put(b.storage, start, data), resultingCount)
  }

  /** The same call on the plain sequence. */
  function PlainAfter(elements: seq<Byte>, op: RawOp): seq<Byte>
    requires Admissible(op)
  {
    match op
    case SetCount(count) => Resized(elements, count)
    case WriteRange(start, data, resultingCount) => Resized(Overwritten(elements, start, data), resultingCount)
  }

  function RawAfterAll(b: Buffer, ops: seq<RawOp>): (r: Buffer)
    requires IsBuffer(b) && AllAdmissible(ops)
    ensures IsBuffer(r)
  {
    if ops == [] then b else RawAfter(RawAfterAll(b, DropLast(ops)), Last(ops))
  }

  function PlainAfterAll(elements: seq<Byte>, ops: seq<RawOp>): seq<Byte>
    requires AllAdmissible(ops)
  {
    if ops == [] then elements else PlainAfter(PlainAfterAll(elements, DropLast(ops)), Last(ops))
  }

  /** Whether a call leaves no nonzero octet past its count. */
  predicate LeavesNothing(b: Buffer, op: RawOp)
    requires IsBuffer(b)
  {
    op.WriteRange? && op.resultingCount <= b.len ==> ZeroBetween(b.storage, op.resultingCount, b.len)
  }

  lemma ClearedRefines(b: Buffer, count: nat)
    requires IsBuffer(b) && ZeroTail(b) && count <= CAPACITY
    ensures Cleared(b.storage, count)[..count] == Resized(Shown(b), count)
    ensures ZeroBetween(Cleared(b.storage, count), count, CAPACITY)
  {
    if count > b.len {
      forall i | b.len <= i < count ensures b.storage[i] == 0 {
      }
      assert Cleared(b.storage, count)[..count] == b.storage[..b.len] + Zeros(count - b.len);
    }
  }

  /** With a zero tail, one call does to the octets shown what it does to the plain sequence,
      and the tail stays zero exactly when nothing is left behind. */
  lemma RawStep(b: Buffer, op: RawOp)
    requires IsBuffer(b) && ZeroTail(b) && Admissible(op)
    ensures Shown(RawAfter(b, op)) == PlainAfter(Shown(b), op)
    ensures ZeroTail(RawAfter(b, op)) <==> LeavesNothing(b, op)
  {
    match op
    case SetCount(count) => ClearedRefines(b, count);
    case WriteRange(start, data, resultingCount) => PutRefines(b.storage, b.len, start, data, resultingCount);
  }

  /** The tail matters: it is zero exactly when every next call shows what the plain sequence would. */
  lemma ZeroTailIffFaithful(b: Buffer)
    requires IsBuffer(b)
    ensures ZeroTail(b) <==> forall op :: Admissible(op) ==> Shown(RawAfter(b, op)) == PlainAfter(Shown(b), op)
  {
    if ZeroTail(b) {
      forall op | Admissible(op) ensures Shown(RawAfter(b, op)) == PlainAfter(Shown(b), op) {
        RawStep(b, op);
      }
    } else {
      var grow := WriteRange(0, [], CAPACITY);
      var i :| b.len <= i < CAPACITY && b.storage[i] != 0;
      assert Admissible(grow);
      assert Shown(RawAfter(b, grow))[i] == b.storage[i];
      assert PlainAfter(Shown(b), grow)[i] == 0;
    }
  }

  /** Whether every call of a run leaves nothing behind. */
  predicate RunLeavesNothing(b: Buffer, ops: seq<RawOp>)
    requires IsBuffer(b) && AllAdmissible(ops)
  {
    forall k :: 0 <= k < |ops| ==> LeavesNothing(RawAfterAll(b, ops[..k]), ops[k])
  }

  lemma RunPrefix(b: Buffer, ops: seq<RawOp>)
    requires ops != [] && IsBuffer(b) && AllAdmissible(ops)
    ensures AllAdmissible(DropLast(ops)) && Admissible(Last(ops))
    ensures RunLeavesNothing(b, ops)
            ==> RunLeavesNothing(b, DropLast(ops)) && LeavesNothing(RawAfterAll(b, DropLast(ops)), Last(ops))
  {
    var init := DropLast(ops);
    assert Admissible(ops[|ops| - 1]) && ops[..|ops| - 1] == init;
    if RunLeavesNothing(b, ops) {
      assert LeavesNothing(RawAfterAll(b, ops[..|ops| - 1]), ops[|ops| - 1]);
      forall k | 0 <= k < |init| ensures LeavesNothing(RawAfterAll(b, init[..k]), init[k]) {
        assert init[..k] == ops[..k] && init[k] == ops[k];
      }
    }
  }

  /** Over any run of raw calls that leaves nothing behind, the array shows what the plain sequence would. */
  lemma {:induction false} RawRunRefines(b: Buffer, ops: seq<RawOp>)
    requires IsBuffer(b) && ZeroTail(b) && AllAdmissible(ops) && RunLeavesNothing(b, ops)
    ensures ZeroTail(RawAfterAll(b, ops)) && Shown(RawAfterAll(b, ops)) == PlainAfterAll(Shown(b), ops)
  {
    if ops != [] {
      RunPrefix(b, ops);
      RawRunRefines(b, DropLast(ops));
      RawStep(RawAfterAll(b, DropLast(ops)), Last(ops));
    }
  }

  /** No range write of the run lowers the count, as the shared write rules promise their backend. */
  predicate NeverLowers(b: Buffer, ops: seq<RawOp>)
    requires IsBuffer(b) && AllAdmissible(ops)
  {
    forall k :: 0 <= k < |ops| && ops[k].WriteRange? ==> RawAfterAll(b, ops[..k]).len <= ops[k].resultingCount
  }

  /** So under the promise of the shared write rules the array is always a plain sequence. */
  lemma PromisedRunRefines(b: Buffer, ops: seq<RawOp>)
    requires IsBuffer(b) && ZeroTail(b) && AllAdmissible(ops) && NeverLowers(b, ops)
    ensures ZeroTail(RawAfterAll(b, ops)) && Shown(RawAfterAll(b, ops)) == PlainAfterAll(Shown(b), ops)
  {
    RawRunRefines(b, ops);
  }

  const FULL := Buffer(Zeros(CAPACITY), CAPACITY)

  const LOWERING: seq<RawOp> := [WriteRange(0, [1, 2], CAPACITY), WriteRange(0, [1], 1), WriteRange(0, [], 2)]

  /** Without it: the second write lowers the count over an octet that the third brings back,
      where a plain sequence shows zero. */
  lemma LoweringWriteExposesOldOctet()
    ensures AllAdmissible(LOWERING)
    ensures Shown(RawAfterAll(FULL, LOWERING)) == [1, 2]
    ensures PlainAfterAll(Shown(FULL), LOWERING) == [1, 0]
  {
    var a, b, c := LOWERING[0], LOWERING[1], LOWERING[2];
    assert DropLast(LOWERING) == [a, b] && DropLast([a, b]) == [a] && DropLast([a]) == [];
    var first := RawAfter(FULL, a);
    assert RawAfterAll(FULL, [a]) == first && first.storage[..2] == [1, 2];
    var second := RawAfter(first, b);
    assert RawAfterAll(FULL, [a, b]) == second && second.storage[..2] == [1, 2];
    assert RawAfter(second, c).storage[..2] == [1, 2];
    assert PlainAfterAll(Shown(FULL), [a]) == PlainAfter(Shown(FULL), a);
    assert PlainAfterAll(Shown(FULL), [a, b]) == [1];
    assert PlainAfter([1], c) == [1, 0];
  }
}
