/** Function codes 6 and 16 write without taking address locks: when a mask write and such a write,
    interleaved anyhow, still leave what one after the other would. */
module UnlockedWrites {
  import opened Bytes
  import opened AddressLocks
  import opened AddressLockSerial

  /** Whose access comes next: true for the read and the write of the mask write. */
  type Turns = seq<bool>

  /** Exactly `x` turns of the mask write and `y` of the other. */
  predicate Schedules(turns: Turns, x: nat, y: nat) {
    if turns == [] then x == 0 && y == 0
    else if turns[0] then x > 0 && Schedules(turns[1..], x - 1, y)
    else y > 0 && Schedules(turns[1..], x, y - 1)
  }

  predicate Pair(r: Request, w: Request) { r.Modify? && w.WriteMany? && |w.values| < SPACE }

  /** The store after the remaining accesses of both, the first having made `i` and the second `j`. */
  function Interleaved(
    r: Request, w: Request, turns: Turns, i: nat, j: nat, current: bv16, registers: map<u16, bv16>): map<u16, bv16>
    requires Pair(r, w) && i <= 2 && j <= |w.values| && Schedules(turns, 2 - i, |w.values| - j)
    decreases |turns|
  {
    if turns == [] then registers
    else if turns[0] then
      var (read, after) := Access(r, i, current, registers);
      Interleaved(r, w, turns[1..], i + 1, j, read, after)
    else
      Interleaved(r, w, turns[1..], i, j + 1, current, Access(w, j, 0, registers).1)
  }

  /** How many accesses of the mask write come before the `o`th remaining one of the other. */
  function Before(turns: Turns, o: nat): nat {
    if turns == [] then 0
    else if turns[0] then 1 + Before(turns[1..], o)
    else if o == 0 then 0
    else Before(turns[1..], o - 1)
  }

  lemma {:induction false} ElsewhereWritten(
    r: Request, w: Request, turns: Turns, i: nat, j: nat, current: bv16, registers: map<u16, bv16>, a: u16)
    requires Pair(r, w) && i <= 2 && j <= |w.values| && Schedules(turns, 2 - i, |w.values| - j) && a != r.address
    ensures var o := Offset(a, w.address);
      Read(Interleaved(r, w, turns, i, j, current, registers), a)
      == if j <= o < |w.values| then w.values[o] else Read(registers, a)
    decreases |turns|
  {
    if turns != [] {
      if turns[0] {
        var (read, after) := Access(r, i, current, registers);
        ElsewhereWritten(r, w, turns[1..], i + 1, j, read, after, a);
      } else {
        ElsewhereWritten(r, w, turns[1..], i, j + 1, current, Access(w, j, 0, registers).1, a);
      }
    }
  }

  /** The value the mask write leaves or has still to leave, if the other write does not come again. */
  function Updated(r: Request, i: nat, current: bv16, v: bv16): bv16
    requires r.Modify?
  {
    if i == 0 then r.update(v) else if i == 1 then r.update(current) else v
  }

  lemma {:induction false} AtTheAddress(
    r: Request, w: Request, turns: Turns, i: nat, j: nat, current: bv16, registers: map<u16, bv16>)
    requires Pair(r, w) && i <= 2 && j <= |w.values| && Schedules(turns, 2 - i, |w.values| - j)
    ensures var o := Offset(r.address, w.address);
      var e := Read(Interleaved(r, w, turns, i, j, current, registers), r.address);
      var v := Read(registers, r.address);
      if !(j <= o < |w.values|) then e == Updated(r, i, current, v)
      else
        var n := i + Before(turns, o - j);
        n <= 2 && e == if n == 2 then w.values[o]
                       else if n == 0 then r.update(w.values[o])
                       else Updated(r, i, current, v)
    decreases |turns|
  {
    if turns != [] {
      if turns[0] {
        var (read, after) := Access(r, i, current, registers);
        AtTheAddress(r, w, turns[1..], i + 1, j, read, after);
      } else {
        AtTheAddress(r, w, turns[1..], i, j + 1, current, Access(w, j, 0, registers).1);
      }
    }
  }

  ghost predicate Same(x: map<u16, bv16>, y: map<u16, bv16>) { forall a: u16 :: Read(x, a) == Read(y, a) }

  function Alone(r: Request, registers: map<u16, bv16>): map<u16, bv16>
    requires InRange(r)
  {
    RunAlone(r, 0, Accesses(r), 0, registers)
  }

  /** The other write hits the address between the read and the write of the mask write. */
  predicate Hit(r: Request, w: Request, turns: Turns)
    requires Pair(r, w)
  {
    Touches(w, r.address) && Before(turns, Offset(r.address, w.address)) == 1
  }

  /** The store at an address in each of the three ways. */
  lemma Outcomes(r: Request, w: Request, turns: Turns, registers: map<u16, bv16>, a: u16)
    requires Pair(r, w) && Schedules(turns, 2, |w.values|)
    ensures var o, v := Offset(a, w.address), Read(registers, a);
      var first, last := Read(Alone(w, Alone(r, registers)), a), Read(Alone(r, Alone(w, registers)), a);
      var e := Read(Interleaved(r, w, turns, 0, 0, 0, registers), a);
      if a != r.address then first == last == e
      else if !Touches(w, a) then first == last == e == r.update(v)
      else
        && first == w.values[o] && last == r.update(w.values[o])
        && Before(turns, o) <= 2
        && e == (if Before(turns, o) == 0 then last else if Before(turns, o) == 2 then first else r.update(v))
  {
    var v := Read(registers, a);
    RunAloneIsLocal(r, 0, 2, 0, registers, a, v);
    RunAloneIsLocal(w, 0, |w.values|, 0, Alone(r, registers), a, Read(Alone(r, registers), a));
    RunAloneIsLocal(w, 0, |w.values|, 0, registers, a, v);
    RunAloneIsLocal(r, 0, 2, 0, Alone(w, registers), a, Read(Alone(w, registers), a));
    if a == r.address {
      AtTheAddress(r, w, turns, 0, 0, 0, registers);
    } else {
      ElsewhereWritten(r, w, turns, 0, 0, 0, registers, a);
    }
  }

  /** LOST, exactly. A mask write interleaved anyhow with a write that takes no locks leaves what one of
      the two orders would, unless the write hits the address between the read and the write of the mask
      write, and the update of the value read is neither the value written nor its update. */
  lemma InOrderUnlessHit(r: Request, w: Request, turns: Turns, registers: map<u16, bv16>)
    requires Pair(r, w) && Schedules(turns, 2, |w.values|)
    ensures var e := Interleaved(r, w, turns, 0, 0, 0, registers);
      Same(e, Alone(w, Alone(r, registers))) || Same(e, Alone(r, Alone(w, registers)))
      <==>
      !(Hit(r, w, turns)
        && var v, written := Read(registers, r.address), w.values[Offset(r.address, w.address)];
           r.update(v) != written && r.update(v) != r.update(written))
  {
    var e, a := Interleaved(r, w, turns, 0, 0, 0, registers), r.address;
    var first, last := Alone(w, Alone(r, registers)), Alone(r, Alone(w, registers));
    forall b: u16 ensures b != a ==> Read(e, b) == Read(first, b) == Read(last, b) {
      Outcomes(r, w, turns, registers, b);
    }
    Outcomes(r, w, turns, registers, a);
    assert Same(e, first) <==> Read(e, a) == Read(first, a);
    assert Same(e, last) <==> Read(e, a) == Read(last, a);
  }

  lemma MaskBits()
    ensures Masked(0, 0xff00, 0x0001) == 0x0001 && Masked(0x0100, 0xff00, 0x0001) == 0x0101
  {}

  /** It happens: register 0 holds 0, function code 22 sets its lowest bit, function code 6 writes 0x0100 in
      between, and what is left is neither order's 0x0100 nor 0x0101. */
  lemma AWriteIsLost()
    ensures var r, w, turns := MaskWrite(0, 0xff00, 0x0001), WriteMany(0, [0x0100]), [true, false, true];
      && Schedules(turns, 2, 1)
      && Read(Interleaved(r, w, turns, 0, 0, 0, map[]), 0) == 0x0001
      && !Same(Interleaved(r, w, turns, 0, 0, 0, map[]), Alone(w, Alone(r, map[])))
      && !Same(Interleaved(r, w, turns, 0, 0, 0, map[]), Alone(r, Alone(w, map[])))
  {
    var r, w, turns := MaskWrite(0, 0xff00, 0x0001), WriteMany(0, [0x0100]), [true, false, true];
    MaskBits();
    assert turns[1..] == [false, true] && [false, true][1..] == [true] && [true][1..] == [];
    assert Schedules([], 0, 0) && Schedules([true], 1, 0) && Schedules([false, true], 1, 1);
    assert Before([false, true], 0) == 0;
    InOrderUnlessHit(r, w, turns, map[]);
    Outcomes(r, w, turns, map[], 0);
  }
}
