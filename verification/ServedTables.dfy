/** What a served request does to a model's tables and what the master reads from the response, entry by
    entry: which table, which addresses, which values, which ranges. */
module ServedTables {
  import opened Bytes
  import opened Pdu
  import opened Serving
  import opened Exchange
  import C = Crc
  import L = AddressLocks
  import S = Session

  // ---------------------------------------------------------------- which ranges

  /** Some declared range holds both ends of a run, or none is declared. */
  predicate Declared(ranges: Intervals, first: u16, after: u16) {
    ranges == []
    || exists i :: 0 <= i < |ranges| && ranges[i].0 <= first <= ranges[i].1 && ranges[i].0 <= after <= ranges[i].1
  }

  lemma BothPermitted(ranges: Intervals, first: u16, after: u16)
    ensures Permitted([first, after], ranges) <==> Declared(ranges, first, after)
  {
    var values: seq<u16> := [first, after];
    assert values[0] == first && values[1] == after;
    forall i | 0 <= i < |ranges|
      ensures AllInside(values, ranges[i]) <==>
        ranges[i].0 <= first <= ranges[i].1 && ranges[i].0 <= after <= ranges[i].1
    {
      assert AllInside(values, ranges[i]) ==> Inside(values[0], ranges[i]) && Inside(values[1], ranges[i]);
    }
  }

  lemma OnePermitted(ranges: Intervals, first: u16)
    ensures Permitted([first], ranges) <==> Declared(ranges, first, first)
  {
    var values: seq<u16> := [first];
    assert values[0] == first;
    forall i | 0 <= i < |ranges| ensures AllInside(values, ranges[i]) <==> ranges[i].0 <= first <= ranges[i].1 {
      assert AllInside(values, ranges[i]) ==> Inside(values[0], ranges[i]);
    }
  }

  /** One and the same range holds the ends of two runs. */
  predicate DeclaredBoth(ranges: Intervals, a: u16, b: u16, c: u16, d: u16) {
    ranges == []
    || exists i :: 0 <= i < |ranges|
         && ranges[i].0 <= a <= ranges[i].1 && ranges[i].0 <= b <= ranges[i].1
         && ranges[i].0 <= c <= ranges[i].1 && ranges[i].0 <= d <= ranges[i].1
  }

  lemma FourPermitted(ranges: Intervals, a: u16, b: u16, c: u16, d: u16)
    ensures Permitted([a, b, c, d], ranges) <==> DeclaredBoth(ranges, a, b, c, d)
  {
    var values: seq<u16> := [a, b, c, d];
    assert values[0] == a && values[1] == b && values[2] == c && values[3] == d;
    forall i | 0 <= i < |ranges|
      ensures AllInside(values, ranges[i]) <==>
        && ranges[i].0 <= a <= ranges[i].1 && ranges[i].0 <= b <= ranges[i].1
        && ranges[i].0 <= c <= ranges[i].1 && ranges[i].0 <= d <= ranges[i].1
    {
      assert AllInside(values, ranges[i]) ==>
        Inside(values[0], ranges[i]) && Inside(values[1], ranges[i])
        && Inside(values[2], ranges[i]) && Inside(values[3], ranges[i]);
    }
  }

  /** RANGES. Whether a command is allowed is a matter of the ranges of the table it reads or writes: those
      of coils for function codes 1, 5 and 15, of discrete inputs for 2, of input registers for 4, and of
      holding registers for the others. */
  lemma AllowedIff(ranges: Ranges, c: Command)
    requires InLimit(c)
    ensures Allowed(ranges, c) <==>
      match c
      case ReadCoils(a, n) => Declared(ranges.coils, a, Wrap(a + n))
      case ReadDiscreteInputs(a, n) => Declared(ranges.discreteInputs, a, Wrap(a + n))
      case ReadHoldingRegisters(a, n) => Declared(ranges.holding, a, Wrap(a + n))
      case ReadInputRegisters(a, n) => Declared(ranges.input, a, Wrap(a + n))
      case WriteSingleCoil(a, _) => Declared(ranges.coils, a, a)
      case WriteSingleRegister(a, _) => Declared(ranges.holding, a, a)
      case WriteMultipleCoils(a, v) => Declared(ranges.coils, a, Wrap(a + |v|))
      case WriteMultipleRegisters(a, v) => Declared(ranges.holding, a, Wrap(a + |v|))
      case MaskWriteRegister(a, _, _) => Declared(ranges.holding, a, a)
      case ReadWriteRegisters(a, n, w, v) => DeclaredBoth(ranges.holding, a, Wrap(a + n), w, Wrap(w + |v|))
  {
    var e, intervals := Endpoints(c), IntervalsFor(ranges, c);
    if |e| == 1 {
      OnePermitted(intervals, e[0]);
    } else if |e| == 2 {
      BothPermitted(intervals, e[0], e[1]);
    } else {
      FourPermitted(intervals, e[0], e[1], e[2], e[3]);
    }
  }

  // ---------------------------------------------------------------- which addresses

  /** The `k`th address after one. */
  predicate IsAt(a: u16, start: u16, k: nat) { k < SPACE && a == Wrap(start + k) }

  ghost predicate IsOneOf(a: u16, start: u16, n: nat) { exists k: nat :: k < n && IsAt(a, start, k) }

  lemma BetweenIff(a: u16, start: u16, n: nat)
    requires n <= SPACE
    ensures Between(a, start, n) <==> IsOneOf(a, start, n)
  {
    assert IsAt(a, start, Offset(a, start));
    if IsOneOf(a, start, n) {
      var k: nat :| k < n && IsAt(a, start, k);
      assert k == Offset(a, start);
    }
  }

  /** ADDRESSES. A command touches as many addresses as it has values or asks for, one after the other from
      its address on, going round after the last one. */
  lemma TouchesIff(c: Command, a: u16)
    requires InLimit(c)
    ensures Touches(c, a) <==>
      match c
      case ReadCoils(s, n) => IsOneOf(a, s, n)
      case ReadDiscreteInputs(s, n) => IsOneOf(a, s, n)
      case ReadHoldingRegisters(s, n) => IsOneOf(a, s, n)
      case ReadInputRegisters(s, n) => IsOneOf(a, s, n)
      case WriteSingleCoil(s, _) => a == s
      case WriteSingleRegister(s, _) => a == s
      case MaskWriteRegister(s, _, _) => a == s
      case WriteMultipleCoils(s, v) => IsOneOf(a, s, |v|)
      case WriteMultipleRegisters(s, v) => IsOneOf(a, s, |v|)
      case ReadWriteRegisters(s, n, w, v) => IsOneOf(a, s, n) || IsOneOf(a, w, |v|)
  {
    match c
    case WriteMultipleCoils(s, v) => BetweenIff(a, s, |v|);
    case WriteMultipleRegisters(s, v) => BetweenIff(a, s, |v|);
    case ReadWriteRegisters(s, n, w, v) =>
      BetweenIff(a, s, n);
      BetweenIff(a, w, |v|);
    case ReadCoils(s, n) => BetweenIff(a, s, n);
    case ReadDiscreteInputs(s, n) => BetweenIff(a, s, n);
    case ReadHoldingRegisters(s, n) => BetweenIff(a, s, n);
    case ReadInputRegisters(s, n) => BetweenIff(a, s, n);
    case _ =>
  }

  // ---------------------------------------------------------------- what the master reads

  ghost predicate CoilsAre(got: Values, n: u16, table: seq<bool>, a: u16)
    requires |table| == SPACE
  {
    got.Coils? && |got.coils| == n && forall k :: 0 <= k < n ==> got.coils[k] == table[Wrap(a + k)]
  }

  ghost predicate RegistersAre(got: Values, n: u16, table: seq<bv16>, a: u16)
    requires |table| == SPACE
  {
    got.Registers? && |got.registers| == n && forall k :: 0 <= k < n ==> got.registers[k] == table[Wrap(a + k)]
  }

  /** Function code 23 reads after it has written. */
  ghost predicate RegistersAfterWrite(got: Values, n: u16, table: seq<bv16>, a: u16, w: u16, v: seq<bv16>)
    requires |table| == SPACE
  {
    && got.Registers? && |got.registers| == n
    && forall k :: 0 <= k < n ==>
         var at := Wrap(a + k);
         got.registers[k] == if Offset(at, w) < |v| then v[Offset(at, w)] else table[at]
  }

  /** What was read is, entry by entry, what the table of the command holds from the address on. */
  ghost predicate IsRead(c: Command, s: Store, got: Values)
    requires Whole(s)
  {
    match c
    case ReadCoils(a, n) => CoilsAre(got, n, s.coils, a)
    case ReadDiscreteInputs(a, n) => CoilsAre(got, n, s.discreteInputs, a)
    case ReadHoldingRegisters(a, n) => RegistersAre(got, n, s.holding, a)
    case ReadInputRegisters(a, n) => RegistersAre(got, n, s.input, a)
    case ReadWriteRegisters(a, n, w, v) => RegistersAfterWrite(got, n, s.holding, a, w, v)
    case _ => got == Nothing
  }

  lemma ReadIs(c: Command, s: Store)
    requires InLimit(c) && Whole(s)
    ensures IsRead(c, s, Read(c, Written(c, s)))
  {}

  /** READS. What a master reads from the response to its command is, entry by entry, what the table of
      that command holds from the address on, going round after the last one. */
  lemma ReadsTheTable(transaction: Option<u16>, unit: byte, c: Command, ranges: Ranges, s: Store)
    requires InLimit(c) && Whole(s) && Allowed(ranges, c)
    ensures var request := RequestOf(transaction, unit, c);
      && Serviceable(request)
      && var response := Serve(ranges, s, request).0;
         && response.Some? && S.Verdicts(ResponseChecks(unit, c), response.value) == S.Accept
         && |response.value.data| == ResponseLength(c)
         && IsRead(c, s, ReadFrom(c, response.value.data))
  {
    CarriedOut(transaction, unit, c, ranges, s);
    ReadIs(c, s);
  }

  // ---------------------------------------------------------------- what the tables hold afterwards

  predicate Under(m: bv16, x: bv16) { x & m != 0 }

  function And(x: bv16, y: bv16): bv16 { x & y }

  function Or(x: bv16, y: bv16): bv16 { x | y }

  function Not(x: bv16): bv16 { !x }

  lemma AndUnder(m: bv16, x: bv16, y: bv16)
    requires Under(m, And(x, y))
    ensures Under(m, x) && Under(m, y)
  {}

  lemma UnderBoth(m: bv16, x: bv16, y: bv16)
    requires C.OneBit(m) && Under(m, x) && Under(m, y)
    ensures Under(m, And(x, y))
  {}

  lemma OrUnder(m: bv16, x: bv16, y: bv16)
    requires C.OneBit(m)
    ensures Under(m, Or(x, y)) ==> Under(m, x) || Under(m, y)
    ensures Under(m, x) ==> Under(m, Or(x, y))
    ensures Under(m, y) ==> Under(m, Or(x, y))
  {}

  lemma NotUnder(m: bv16, x: bv16)
    requires C.OneBit(m)
    ensures Under(m, Not(x)) <==> !Under(m, x)
  {}

  lemma Combined<T(!new)>(
    under: T -> bool, and: (T, T) -> T, or: (T, T) -> T, not: T -> T, current: T, andMask: T, orMask: T)
    requires forall x, y :: under(and(x, y)) <==> under(x) && under(y)
    requires forall x, y :: under(or(x, y)) <==> under(x) || under(y)
    requires forall x :: under(not(x)) <==> !under(x)
    ensures under(or(and(current, andMask), and(orMask, not(andMask))))
         == if under(andMask) then under(current) else under(orMask)
  {}

  function UnderMask(m: bv16): bv16 -> bool { x => Under(m, x) }

  lemma MaskedUnder(current: bv16, andMask: bv16, orMask: bv16, m: bv16)
    requires C.OneBit(m)
    ensures UnderMask(m)(Or(And(current, andMask), And(orMask, Not(andMask))))
         == if UnderMask(m)(andMask) then UnderMask(m)(current) else UnderMask(m)(orMask)
  {
    forall x, y ensures UnderMask(m)(And(x, y)) <==> UnderMask(m)(x) && UnderMask(m)(y) {
      if Under(m, And(x, y)) {
        AndUnder(m, x, y);
      } else if Under(m, x) && Under(m, y) {
        UnderBoth(m, x, y);
      }
    }
    forall x, y ensures UnderMask(m)(Or(x, y)) <==> UnderMask(m)(x) || UnderMask(m)(y) {
      OrUnder(m, x, y);
    }
    forall x ensures UnderMask(m)(Not(x)) <==> !UnderMask(m)(x) {
      NotUnder(m, x);
    }
    Combined(UnderMask(m), And, Or, Not, current, andMask, orMask);
  }

  /** The formula of a mask write, bit by bit. */
  lemma MaskedBit(current: bv16, andMask: bv16, orMask: bv16, i: nat)
    requires i < 16
    ensures C.Bit(L.Masked(current, andMask, orMask), i)
         == if C.Bit(andMask, i) then C.Bit(current, i) else C.Bit(orMask, i)
  {
    C.MaskIsOneBit(i);
    MaskedUnder(current, andMask, orMask, C.Mask(i));
  }

  /** From an address on, going round after the last one, the values; elsewhere what was there. */
  ghost predicate Holds<T>(after: seq<T>, before: seq<T>, w: u16, v: seq<T>) {
    && |after| == |before| == SPACE && |v| < SPACE
    && forall a: u16 :: after[a] == if Offset(a, w) < |v| then v[Offset(a, w)] else before[a]
  }

  /** The bits of the register with a one in the AND mask stay, the others are those of the OR mask; and no
      other register changes. */
  ghost predicate HoldsMasked(after: seq<bv16>, before: seq<bv16>, a: u16, andMask: bv16, orMask: bv16) {
    && |after| == |before| == SPACE
    && (forall b: u16 :: b != a ==> after[b] == before[b])
    && forall i: nat :: i < 16 ==> C.Bit(after[a], i) == if C.Bit(andMask, i) then C.Bit(before[a], i) else C.Bit(orMask, i)
  }

  /** The table of the command holds what it writes, and the others stay. */
  ghost predicate IsWritten(c: Command, s: Store, t: Store) {
    match c
    case WriteSingleCoil(a, on) => Holds(t.coils, s.coils, a, [on]) && t.holding == s.holding
    case WriteMultipleCoils(a, v) => Holds(t.coils, s.coils, a, v) && t.holding == s.holding
    case WriteSingleRegister(a, v) => Holds(t.holding, s.holding, a, [v]) && t.coils == s.coils
    case WriteMultipleRegisters(a, v) => Holds(t.holding, s.holding, a, v) && t.coils == s.coils
    case ReadWriteRegisters(_, _, w, v) => Holds(t.holding, s.holding, w, v) && t.coils == s.coils
    case MaskWriteRegister(a, andMask, orMask) =>
      HoldsMasked(t.holding, s.holding, a, andMask, orMask) && t.coils == s.coils
    case _ => t == s
  }

  lemma WrittenIs(c: Command, s: Store)
    requires InLimit(c) && Whole(s)
    ensures var t := Written(c, s); t.discreteInputs == s.discreteInputs && t.input == s.input && IsWritten(c, s, t)
  {
    if c.MaskWriteRegister? {
      MaskHolds(s.holding, c.address, c.andMask, c.orMask);
    }
  }

  /** WRITES. What a served command leaves, entry by entry and for a mask write bit by bit; the tables it
      does not write stay. */
  lemma WritesTheTable(transaction: Option<u16>, unit: byte, c: Command, ranges: Ranges, s: Store)
    requires InLimit(c) && Whole(s) && Allowed(ranges, c)
    ensures var request := RequestOf(transaction, unit, c);
      && Serviceable(request)
      && var t := Serve(ranges, s, request).1;
         && t.discreteInputs == s.discreteInputs && t.input == s.input
         && IsWritten(c, s, t)
  {
    CarriedOut(transaction, unit, c, ranges, s);
    WrittenIs(c, s);
  }

  lemma MaskHolds(bank: seq<bv16>, a: u16, andMask: bv16, orMask: bv16)
    requires |bank| == SPACE
    ensures HoldsMasked(Patch(bank, a, [L.Masked(bank[a], andMask, orMask)]), bank, a, andMask, orMask)
  {
    forall i: nat | i < 16
      ensures C.Bit(L.Masked(bank[a], andMask, orMask), i)
           == if C.Bit(andMask, i) then C.Bit(bank[a], i) else C.Bit(orMask, i)
    {
      MaskedBit(bank[a], andMask, orMask, i);
    }
  }
}
