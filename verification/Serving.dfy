/** The slave's answer to a request: range checks, the model's coils and registers, and the response. */
module Serving {
  import opened Bytes
  import opened Adus
  import opened Packing
  import opened Pdu
  import L = AddressLocks

  // ---------------------------------------------------------------- the model

  /** The four tables of a model, one entry to an address. */
  datatype Store = Store(coils: seq<bool>, discreteInputs: seq<bool>, holding: seq<bv16>, input: seq<bv16>)

  predicate Whole(s: Store) {
    |s.coils| == |s.discreteInputs| == |s.holding| == |s.input| == SPACE
  }

  /** A table with `values` from an address on, going round after the last address. */
  function Patch<T>(bank: seq<T>, at: u16, values: seq<T>): (r: seq<T>)
    requires |bank| == SPACE && |values| <= SPACE
    ensures |r| == SPACE
  {
    seq(SPACE, i requires 0 <= i < SPACE => if Offset(i, at) < |values| then values[Offset(i, at)] else bank[i])
  }

  /** The addresses written get the values, and no other address changes; every address is `k` after `at`
      for some `k`. */
  lemma PatchAt<T>(bank: seq<T>, at: u16, values: seq<T>, k: u16)
    requires |bank| == SPACE && |values| <= SPACE
    ensures var a := Wrap(at + k);
      Offset(a, at) == k && Patch(bank, at, values)[a] == if k < |values| then values[k] else bank[a]
  {}

  lemma PatchOneMore<T>(bank: seq<T>, at: u16, values: seq<T>, v: T)
    requires |bank| == SPACE && |values| < SPACE
    ensures Patch(bank, at, values + [v]) == Patch(bank, at, values)[Wrap(at + |values|) := v]
  {}

  /** The `n` entries from an address on, going round as well. */
  function Slice<T>(bank: seq<T>, at: u16, n: u16): (r: seq<T>)
    requires |bank| == SPACE
    ensures |r| == n
  {
    seq(n, i requires 0 <= i < n => bank[Wrap(at + i)])
  }

  /** The values a master gets back: none of its own. */
  datatype Values = Coils(coils: seq<bool>) | Registers(registers: seq<bv16>) | Nothing

  /** What a command does to the tables. */
  function Written(c: Command, s: Store): (t: Store)
    requires Whole(s) && InLimit(c)
    ensures Whole(t)
  {
    match c
    case WriteSingleCoil(a, on) => s.(coils := Patch(s.coils, a, [on]))
    case WriteSingleRegister(a, v) => s.(holding := Patch(s.holding, a, [v]))
    case WriteMultipleCoils(a, v) => s.(coils := Patch(s.coils, a, v))
    case WriteMultipleRegisters(a, v) => s.(holding := Patch(s.holding, a, v))
    case MaskWriteRegister(a, andMask, orMask) =>
      s.(holding := Patch(s.holding, a, [L.Masked(s.holding[a], andMask, orMask)]))
    case ReadWriteRegisters(_, _, w, v) => s.(holding := Patch(s.holding, w, v))
    case _ => s
  }

  /** What it reads, after it has written. */
  function Read(c: Command, s: Store): Values
    requires Whole(s)
  {
    match c
    case ReadCoils(a, n) => Coils(Slice(s.coils, a, n))
    case ReadDiscreteInputs(a, n) => Coils(Slice(s.discreteInputs, a, n))
    case ReadHoldingRegisters(a, n) => Registers(Slice(s.holding, a, n))
    case ReadInputRegisters(a, n) => Registers(Slice(s.input, a, n))
    case ReadWriteRegisters(a, n, _, _) => Registers(Slice(s.holding, a, n))
    case _ => Nothing
  }

  /** A model with its tables in memory, and the default ways of writing several entries. */
  class Model {
    const coils: array<bool>
    const discreteInputs: array<bool>
    const holding: array<bv16>
    const input: array<bv16>

    ghost predicate Valid() {
      && coils.Length == discreteInputs.Length == holding.Length == input.Length == SPACE
      && coils != discreteInputs && holding != input
      && var bits: set<object> := {coils, discreteInputs};
         var words: set<object> := {holding, input};
         bits !! words
    }

    ghost function Contents(): (s: Store)
      reads coils, discreteInputs, holding, input
      requires Valid()
      ensures Whole(s)
    {
      Store(coils[..], discreteInputs[..], holding[..], input[..])
    }

    constructor ()
      ensures Valid() && fresh(coils) && fresh(discreteInputs) && fresh(holding) && fresh(input)
    {
      coils := new bool[SPACE](_ => false);
      discreteInputs := new bool[SPACE](_ => false);
      holding := new bv16[SPACE](_ => 0);
      input := new bv16[SPACE](_ => 0);
    }

    /** One entry after the other, the address going round after the last one. */
    static method WriteMultiple<T>(bank: array<T>, address: u16, values: seq<T>)
      requires bank.Length == SPACE && |values| <= SPACE
      modifies bank
      ensures bank[..] == Patch(old(bank[..]), address, values)
    {
      ghost var was := bank[..];
      for i := 0 to |values|
        invariant bank[..] == Patch(was, address, values[..i])
      {
        PatchOneMore(was, address, values[..i], values[i]);
        assert values[..i + 1] == values[..i] + [values[i]];
        bank[Wrap(address + i)] := values[i];
      }
      assert values[..|values|] == values;
    }

    /** Read, mask, write. */
    method MaskWrite(address: u16, andMask: bv16, orMask: bv16)
      requires Valid()
      modifies holding
      ensures holding[..] == Patch(old(holding[..]), address, [L.Masked(old(holding[address]), andMask, orMask)])
    {
      var current := holding[address];
      holding[address] := L.Masked(current, andMask, orMask);
      assert holding[..] == old(holding[..])[address := holding[address]];
    }

    method Write(c: Command)
      requires Valid() && InLimit(c)
      modifies coils, holding
      ensures Contents() == Written(c, old(Contents()))
    {
      match c
      case WriteSingleCoil(a, on) => WriteMultiple(coils, a, [on]);
      case WriteSingleRegister(a, v) => WriteMultiple(holding, a, [v]);
      case WriteMultipleCoils(a, v) => WriteMultiple(coils, a, v);
      case WriteMultipleRegisters(a, v) => WriteMultiple(holding, a, v);
      case MaskWriteRegister(a, andMask, orMask) =>
        MaskWrite(a, andMask, orMask);
        assert old(Contents()).holding[a] == old(holding[a]);
      case ReadWriteRegisters(_, _, w, v) => WriteMultiple(holding, w, v);
      case _ =>
    }

    method ReadOut(c: Command) returns (values: Values)
      requires Valid()
      ensures values == Read(c, Contents())
    {
      values := Nothing;
      match c
      case ReadCoils(a, n) => values := Coils(Slice(coils[..], a, n));
      case ReadDiscreteInputs(a, n) => values := Coils(Slice(discreteInputs[..], a, n));
      case ReadHoldingRegisters(a, n) => values := Registers(Slice(holding[..], a, n));
      case ReadInputRegisters(a, n) => values := Registers(Slice(input[..], a, n));
      case ReadWriteRegisters(a, n, _, _) => values := Registers(Slice(holding[..], a, n));
      case _ =>
    }

    /** Carry out a command: write, then read. */
    method Execute(c: Command) returns (values: Values)
      requires Valid() && InLimit(c)
      modifies coils, holding
      ensures Contents() == Written(c, old(Contents()))
      ensures values == Read(c, Contents())
    {
      Write(c);
      values := ReadOut(c);
    }
  }

  // ---------------------------------------------------------------- the ranges

  /** Pairs of a least and a greatest address. An empty list allows every address. */
  type Intervals = seq<(u16, u16)>

  datatype Ranges = Ranges(coils: Intervals, discreteInputs: Intervals, holding: Intervals, input: Intervals)

  predicate Inside(v: u16, r: (u16, u16)) { r.0 <= v <= r.1 }

  predicate AllInside(values: seq<u16>, r: (u16, u16)) {
    r.0 <= r.1 && forall i :: 0 <= i < |values| ==> Inside(values[i], r)
  }

  predicate Permitted(values: seq<u16>, ranges: Intervals) {
    ranges == [] || exists i :: 0 <= i < |ranges| && AllInside(values, ranges[i])
  }

  /** `check_range`: all the values inside one and the same range. */
  method CheckRange(values: seq<u16>, ranges: Intervals) returns (ok: bool)
    ensures ok == Permitted(values, ranges)
  {
    if ranges == [] {
      return true;
    }
    for i := 0 to |ranges|
      invariant forall j :: 0 <= j < i ==> !AllInside(values, ranges[j])
    {
      var all := ranges[i].0 <= ranges[i].1;
      for j := 0 to |values|
        invariant all == (ranges[i].0 <= ranges[i].1 && forall k :: 0 <= k < j ==> Inside(values[k], ranges[i]))
      {
        all := all && Inside(values[j], ranges[i]);
      }
      if all {
        assert AllInside(values, ranges[i]);
        return true;
      }
    }
    return false;
  }

  /** The values the handlers check, the address after the last one included. */
  function Endpoints(c: Command): seq<u16>
    requires InLimit(c)
  {
    match c
    case WriteSingleCoil(a, _) => [a]
    case WriteSingleRegister(a, _) => [a]
    case MaskWriteRegister(a, _, _) => [a]
    case ReadWriteRegisters(a, n, w, v) => [a, Wrap(a + n), w, Wrap(w + |v|)]
    case WriteMultipleCoils(a, v) => [a, Wrap(a + |v|)]
    case WriteMultipleRegisters(a, v) => [a, Wrap(a + |v|)]
    case _ => [c.address, Wrap(c.address + c.length)]
  }

  function IntervalsFor(ranges: Ranges, c: Command): Intervals {
    match c
    case ReadCoils(_, _) => ranges.coils
    case WriteSingleCoil(_, _) => ranges.coils
    case WriteMultipleCoils(_, _) => ranges.coils
    case ReadDiscreteInputs(_, _) => ranges.discreteInputs
    case ReadInputRegisters(_, _) => ranges.input
    case _ => ranges.holding
  }

  predicate Allowed(ranges: Ranges, c: Command)
    requires InLimit(c)
  {
    Permitted(Endpoints(c), IntervalsFor(ranges, c))
  }

  /** Among the `n` addresses from `start` on, going round after the last one. */
  predicate Between(a: u16, start: u16, n: nat) { Offset(a, start) < n }

  /** The addresses a command reads or writes. */
  predicate Touches(c: Command, a: u16) {
    match c
    case ReadCoils(s, n) => Between(a, s, n)
    case ReadDiscreteInputs(s, n) => Between(a, s, n)
    case ReadHoldingRegisters(s, n) => Between(a, s, n)
    case ReadInputRegisters(s, n) => Between(a, s, n)
    case WriteSingleCoil(s, _) => a == s
    case WriteSingleRegister(s, _) => a == s
    case WriteMultipleCoils(s, v) => Between(a, s, |v|)
    case WriteMultipleRegisters(s, v) => Between(a, s, |v|)
    case MaskWriteRegister(s, _, _) => a == s
    case ReadWriteRegisters(s, n, w, v) => Between(a, s, n) || Between(a, w, |v|)
  }

  lemma RunInside(a: u16, n: nat, r: (u16, u16))
    requires 0 < n < SPACE && Inside(a, r) && Inside(Wrap(a + n), r)
    ensures (forall b: u16 :: Between(b, a, n) ==> Inside(b, r)) <==> a + n < SPACE || r == (0, 0xffff)
  {
    if a + n >= SPACE {
      assert Between(0xffff, a, n);
      assert a + n > SPACE ==> Between(0, a, n);
    }
  }

  /** CONTAINED, exactly. A range that allows a command contains every address the command touches if and
      only if no sum of an address and a length passes the last address, or the range is the whole space. */
  lemma AllowingContainsIff(c: Command, r: (u16, u16))
    requires InLimit(c) && AllInside(Endpoints(c), r)
    ensures (forall a: u16 :: Touches(c, a) ==> Inside(a, r)) <==> Spans(c) || r == (0, 0xffff)
  {
    var e := Endpoints(c);
    assert Inside(e[0], r) && Inside(e[|e| - 1], r);
    match c
    case WriteSingleCoil(a, _) => assert Touches(c, a);
    case WriteSingleRegister(a, _) => assert Touches(c, a);
    case MaskWriteRegister(a, _, _) => assert Touches(c, a);
    case WriteMultipleCoils(a, v) => RunInside(a, |v|, r);
    case WriteMultipleRegisters(a, v) => RunInside(a, |v|, r);
    case ReadWriteRegisters(a, n, w, v) =>
      assert Inside(e[1], r) && Inside(e[2], r);
      RunInside(a, n, r);
      RunInside(w, |v|, r);
      assert forall b: u16 :: Touches(c, b) <==> Between(b, a, n) || Between(b, w, |v|);
    case _ => RunInside(c.address, c.length, r);
  }

  /** ONE RANGE. All the addresses an allowed command touches lie inside one and the same range, if
      any are declared and no sum goes round or the whole space is the only range. */
  lemma AllowedStaysInside(ranges: Ranges, c: Command) returns (r: (u16, u16))
    requires InLimit(c) && Allowed(ranges, c) && IntervalsFor(ranges, c) != []
    requires Spans(c) || forall r :: r in IntervalsFor(ranges, c) ==> r == (0, 0xffff)
    ensures r in IntervalsFor(ranges, c) && r.0 <= r.1
    ensures forall a: u16 :: Touches(c, a) ==> Inside(a, r)
  {
    var intervals := IntervalsFor(ranges, c);
    var i :| 0 <= i < |intervals| && AllInside(Endpoints(c), intervals[i]);
    r := intervals[i];
    AllowingContainsIff(c, r);
  }

  /** A run of `n` addresses is allowed exactly if the address after it is in the range as well, so a
      range can never be used to its last address by a command with a length; and if that address goes
      round, exactly if both ends of the space outside the run are in the range. */
  lemma LastAddressIsRefused(a: u16, n: u16, r: (u16, u16))
    requires n > 0
    ensures a + n < SPACE ==> (Permitted([a, Wrap(a + n)], [r]) <==> r.0 <= a && a + n - 1 < r.1)
    ensures a + n >= SPACE ==> (Permitted([a, Wrap(a + n)], [r]) <==> r.0 <= a + n - SPACE && a <= r.1)
  {
    var values: seq<u16> := [a, Wrap(a + n)];
    assert values[0] == a && values[1] == Wrap(a + n);
    assert [r][0] == r;
    assert Permitted(values, [r]) <==> AllInside(values, r);
  }

  // ---------------------------------------------------------------- the answer

  const ILLEGAL_FUNCTION: byte := 1
  const ILLEGAL_DATA_ADDRESS: byte := 2
  const ILLEGAL_DATA_VALUE: byte := 3

  function Refusal(request: Adu, code: byte): Adu { request.(fc := request.fc | 0x80, data := [code]) }

  /** The data of the response to a command, `values` having been read. */
  function ResponseData(c: Command, values: Values, request: seq<byte>): seq<byte>
    requires InLimit(c)
  {
    match values
    case Coils(v) => Counted((|v| + 7) / 8, PackBits(v))
    case Registers(v) => Counted(2 * |v|, PackWords(v))
    case Nothing =>
      match c
      case WriteMultipleCoils(a, v) => ToBe(a) + ToBe(|v|)
      case WriteMultipleRegisters(a, v) => ToBe(a) + ToBe(|v|)
      case _ => request
  }

  /** A request to the tables. */
  predicate Serviceable(request: Adu) { Understand(request.fc, request.data) != Identify }

  /** The response, if there is one, and the tables afterwards. */
  function Serve(ranges: Ranges, s: Store, request: Adu): (Option<Adu>, Store)
    requires Whole(s) && Serviceable(request)
  {
    match Understand(request.fc, request.data)
    case Silent => (None, s)
    case UnknownFunction => (Some(Refusal(request, ILLEGAL_FUNCTION)), s)
    case Identify => assert false; (None, s)
    case BadValue => (Some(Refusal(request, ILLEGAL_DATA_VALUE)), s)
    case Known(c) =>
      UnderstoodInLimit(request.fc, request.data);
      if !Allowed(ranges, c) then (Some(Refusal(request, ILLEGAL_DATA_ADDRESS)), s)
      else
        var t := Written(c, s);
        (Some(request.(data := ResponseData(c, Read(c, t), request.data))), t)
  }

  /** The table a command writes to changes only where the command touches it. */
  lemma OnlyTouchedChange(c: Command, s: Store, a: u16)
    requires Whole(s) && InLimit(c) && !Touches(c, a)
    ensures Written(c, s).coils[a] == s.coils[a] && Written(c, s).holding[a] == s.holding[a]
  {}

  /** CONTAINED. Whatever a request holds: if it changes an entry of a table, then it was understood as
      a command, was allowed, and touches that address; and the address is in the range that allowed it,
      if any are declared, unless the command goes round the end of the space and that range is not the
      whole of it. Discrete inputs and input registers never change. */
  lemma ServedInside(ranges: Ranges, s: Store, request: Adu, a: u16)
    requires Whole(s) && Serviceable(request)
    ensures var t := Serve(ranges, s, request).1;
      && Whole(t) && t.discreteInputs == s.discreteInputs && t.input == s.input
      && (t.coils[a] != s.coils[a] || t.holding[a] != s.holding[a] ==>
            && Understand(request.fc, request.data).Known?
            && var c := Understand(request.fc, request.data).command;
               && InLimit(c) && Allowed(ranges, c) && Touches(c, a)
               && forall r :: r in IntervalsFor(ranges, c) && AllInside(Endpoints(c), r) ==>
                    Spans(c) || r == (0, 0xffff) ==> Inside(a, r))
  {
    var t := Serve(ranges, s, request).1;
    if t.coils[a] != s.coils[a] || t.holding[a] != s.holding[a] {
      UnderstoodInLimit(request.fc, request.data);
      var c := Understand(request.fc, request.data).command;
      if !Touches(c, a) {
        OnlyTouchedChange(c, s, a);
      }
      forall r | r in IntervalsFor(ranges, c) && AllInside(Endpoints(c), r) && (Spans(c) || r == (0, 0xffff))
        ensures Inside(a, r)
      {
        AllowingContainsIff(c, r);
      }
    }
  }

  /** It goes round: with holding registers from 100 on, a write of 123 registers to the last address is
      allowed, its ends being checked as 65535 and 122, and it writes address 0. */
  lemma WritesBelowTheRange(transaction: Option<u16>, unit: byte, values: seq<bv16>, s: Store)
    requires Whole(s) && |values| == 123
    ensures var ranges, c := Ranges([], [], [(100, 0xffff)], []), WriteMultipleRegisters(0xffff, values);
      && InLimit(c) && Allowed(ranges, c) && Touches(c, 0)
      && var request := Adu(transaction, unit, FcOf(c), RequestData(c));
         Serviceable(request) && Serve(ranges, s, request).1.holding[0] == values[1]
  {
    var c, r := WriteMultipleRegisters(0xffff, values), (100, 0xffff);
    RequestUnderstood(c);
    assert Endpoints(c) == [0xffff, 122];
    assert AllInside(Endpoints(c), r);
    assert [r][0] == r;
    assert Allowed(Ranges([], [], [r], []), c);
  }

  /** The handler on a model: range check, execution, response. */
  method HandleRequest(ranges: Ranges, model: Model, request: Adu) returns (response: Option<Adu>)
    requires model.Valid() && Serviceable(request)
    modifies model.coils, model.holding
    ensures (response, model.Contents()) == Serve(ranges, old(model.Contents()), request)
  {
    match Understand(request.fc, request.data)
    case Silent => response := None;
    case UnknownFunction => response := Some(Refusal(request, ILLEGAL_FUNCTION));
    case Identify => assert false;
    case BadValue => response := Some(Refusal(request, ILLEGAL_DATA_VALUE));
    case Known(c) =>
      UnderstoodInLimit(request.fc, request.data);
      var ok := CheckRange(Endpoints(c), IntervalsFor(ranges, c));
      if !ok {
        return Some(Refusal(request, ILLEGAL_DATA_ADDRESS));
      }
      var values := model.Execute(c);
      response := Some(request.(data := ResponseData(c, values, request.data)));
  }
}
