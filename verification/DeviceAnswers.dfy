/** What Read Device Identification answers, said of the request and the device's objects: when it refuses,
    where an answer begins, and the conformity it reports. */
module DeviceAnswers {
  import opened Bytes
  import opened Adus
  import opened DeviceObjects
  import opened DeviceIdWire
  import DeviceId

  // ---------------------------------------------------------------- refusals

  predicate IsStreamCode(code: byte) { 1 <= code <= 3 }

  lemma CodesAreNumbers(code: byte)
    ensures DeviceId.IsStream(NatOf(code)) <==> IsStreamCode(code)
    ensures NatOf(code) == 0 <==> code == 0
    ensures NatOf(code) > 4 <==> code > 4
    ensures NatOf(code) == 4 <==> code == 4
  {}

  /** REFUSED, exactly, before any page is built: a request that is not three bytes beginning with 0x0e, an
      unknown code, and individual access to a reserved or absent object. */
  lemma RefusedIff(request: seq<byte>, objects: seq<Object>)
    ensures Handle(request, objects) == Exception(DeviceId.IllegalFunction) <==> |request| != 3 || request[0] != 0x0e
    ensures Handle(request, objects) == Exception(DeviceId.IllegalDataValue) <==>
      |request| == 3 && request[0] == 0x0e && !(1 <= request[1] <= 4)
    ensures Handle(request, objects) == Exception(DeviceId.IllegalDataAddress) <==>
      && |request| == 3 && request[0] == 0x0e && request[1] == 4
      && (0x06 < NatOf(request[2]) < 0x80 || forall i :: 0 <= i < |objects| ==> objects[i].id != NatOf(request[2]))
  {
    if |request| == 3 {
      CodesAreNumbers(request[1]);
    }
  }

  lemma {:induction false} TooLongIff(code: u8, start: u8, objects: seq<Object>, total: nat, next: u8)
    requires code != DeviceId.SPECIFIC
    ensures DeviceId.Pick(code, start, objects, total, next).TooLong? <==>
      exists i :: 0 <= i < |objects| && objects[i].id >= start && |objects[i].value| > 245
  {
    if objects != [] {
      var o, rest := objects[0], objects[1..];
      TooLongIff(code, start, rest, total, next);
      TooLongIff(code, start, rest, total, if next == 0 then o.id else next);
      TooLongIff(code, start, rest, total + 2 + |o.value|, next);
      assert forall i :: 0 < i < |objects| ==> objects[i] == rest[i - 1];
    }
  }

  // ---------------------------------------------------------------- where an answer begins

  /** The stream reaches the object asked for, and the device has it. */
  predicate BeginsThere(code: byte, objects: seq<Object>, id: byte) {
    && Has(objects, NatOf(id))
    && match code
       case 1 => NatOf(id) <= 0x02
       case 2 => NatOf(id) <= 0x06
       case 3 => NatOf(id) <= 0x06 || NatOf(id) >= 0x80
       case _ => false
  }

  function StartOf(code: byte, objects: seq<Object>, id: byte): u8 {
    if BeginsThere(code, objects, id) then NatOf(id) else 0
  }

  lemma StartIs(code: byte, objects: seq<Object>, id: byte)
    requires IsStreamCode(code)
    ensures DeviceId.Effective(NatOf(code), objects, NatOf(id)) == StartOf(code, objects, id)
  {
    assert code == 1 || code == 2 || code == 3;
  }

  lemma StreamHandled(code: byte, id: byte, objects: seq<Object>)
    requires IsStreamCode(code)
    ensures var p := DeviceId.PageFrom(NatOf(code), objects, StartOf(code, objects, id));
      && (p.Page? ==> |p.picked| < 256 && Packable(p.picked))
      && Handle([MEI, code, id], objects) == Respond(code, objects, p)
  {
    CodesAreNumbers(code);
    StartIs(code, objects, id);
    PickedIsPackable(NatOf(code), objects, StartOf(code, objects, id));
  }

  /** FROM THE FIRST. Asked for an object the stream does not reach or the device does not have, a stream
      answers as if asked for object 0. */
  lemma StartsAgain(code: byte, id: byte, objects: seq<Object>)
    requires IsStreamCode(code) && !BeginsThere(code, objects, id)
    ensures Handle([MEI, code, id], objects) == Handle([MEI, code, 0], objects)
  {
    StreamHandled(code, id, objects);
    StreamHandled(code, 0, objects);
  }

  /** FROM THERE. Otherwise nothing before that object is sent, and the first the master reads is that
      object itself if its value has at most 241 bytes. */
  lemma BeginsWithAsked(adu: Adu, code: byte, id: byte, objects: seq<Object>, i: nat)
    requires IsStreamCode(code) && BeginsThere(code, objects, id) && Sorted(objects)
    requires i < |objects| && objects[i].id == NatOf(id)
    requires Handle([MEI, code, id], objects) == Data(adu.data)
    ensures WellFormed(adu.data)
    ensures forall o :: o in Parsed(adu.data).objects ==> o in objects && o.id >= NatOf(id)
    ensures |objects[i].value| <= 241 ==> Parsed(adu.data).objects != [] && Parsed(adu.data).objects[0] == objects[i]
  {
    MasterReadsPage(adu, code, id, objects);
    StartIs(code, objects, id);
    DeviceId.PickedFits(NatOf(code), NatOf(id), objects, DeviceId.PAGE_START, 0);
    if |objects[i].value| <= 241 {
      DeviceId.StartIsPicked(NatOf(code), objects, i);
    }
  }

  /** A stream fails exactly if it comes to an object of more than 245 bytes. */
  lemma StreamFailsIff(code: byte, id: byte, objects: seq<Object>)
    requires IsStreamCode(code)
    ensures Handle([MEI, code, id], objects) == Exception(DeviceId.ServerDeviceFailure) <==>
      exists i :: 0 <= i < |objects| && objects[i].id >= StartOf(code, objects, id) && |objects[i].value| > 245
  {
    StreamHandled(code, id, objects);
    CodesAreNumbers(code);
    TooLongIff(NatOf(code), StartOf(code, objects, id), objects, DeviceId.PAGE_START, 0);
  }

  /** LISTED. The objects of a device are those of its model, and "null" in the place of each of the three
      mandatory ones it lacks. */
  lemma ListedAre(identification: map<u8, seq<byte>>, objects: seq<Object>)
    requires Lists(objects, Merged(identification))
    ensures forall id: u8 :: Has(objects, id) <==> id in identification || id <= 2
    ensures forall i :: 0 <= i < |objects| ==>
      objects[i].value == if objects[i].id in identification then identification[objects[i].id] else [0x6e, 0x75, 0x6c, 0x6c]
  {}

  // ---------------------------------------------------------------- what it reports

  predicate HasFrom(objects: seq<Object>, least: u8) { exists i :: 0 <= i < |objects| && objects[i].id >= least }

  lemma ConformityIs(objects: seq<Object>)
    requires Sorted(objects)
    ensures Conformity(objects) == if HasFrom(objects, 0x80) then 0x83 else if HasFrom(objects, 0x03) then 0x82 else 0x81
  {
    if objects != [] {
      var n := |objects| - 1;
      assert forall i :: 0 <= i < n ==> objects[i].id < objects[n].id;
      assert objects[n].id >= 0x80 ==> HasFrom(objects, 0x80);
      assert objects[n].id >= 0x03 ==> HasFrom(objects, 0x03);
    }
  }

  /** CONFORMITY. Every answer with data reports the highest of the three levels of which the device has an
      object: extended ones, regular ones, or none but the basic; and the byte 0xff before the id of the next
      object, if there is one. */
  lemma ReportsConformity(adu: Adu, code: byte, id: byte, objects: seq<Object>)
    requires Sorted(objects) && Handle([MEI, code, id], objects) == Data(adu.data)
    ensures WellFormed(adu.data) && Parsed(adu.data).code == code && adu.data[..2] == [0x0e, code]
    ensures adu.data[3] == if adu.data[4] == 0 then 0x00 else 0xff
    ensures Parsed(adu.data).conformity ==
      if HasFrom(objects, 0x80) then 0x83 else if HasFrom(objects, 0x03) then 0x82 else 0x81
  {
    MasterReadsPage(adu, code, id, objects);
    ConformityIs(objects);
    BytesAreFaithful();
    assert ByteOf(0) == 0;
    assert adu.data[1] == code && adu.data[2] == Conformity(objects);
  }

  // ---------------------------------------------------------------- what fits

  lemma SizeOfMore(o: Object, objects: seq<Object>)
    ensures DeviceId.Size([o] + objects) == 2 + |o.value| + DeviceId.Size(objects)
  {
    assert ([o] + objects)[1..] == objects;
  }

  lemma {:induction false} PickGrows(code: u8, start: u8, objects: seq<Object>, o: Object, total: nat, next: u8)
    requires code != DeviceId.SPECIFIC && |o.value| <= 245 && forall i :: 0 <= i < |objects| ==> |objects[i].value| <= 245
    ensures var p, q := DeviceId.Pick(code, start, objects, total, next), DeviceId.Pick(code, start, objects + [o], total, next);
      && p.Page? && q.Page?
      && var room := total + DeviceId.Size(p.picked) + 2 + |o.value| <= 253;
      && q.picked == p.picked + (if o.id >= start && room then [o] else [])
      && q.next == if o.id >= start && !room && p.next == 0 then o.id else p.next
    decreases |objects|
  {
    var more := objects + [o];
    if objects == [] {
      assert more == [o] && more[1..] == [];
    } else {
      var first, rest := objects[0], objects[1..];
      assert more[0] == first && more[1..] == rest + [o];
      if first.id < start {
        PickGrows(code, start, rest, o, total, next);
      } else if total + 2 + |first.value| > 253 {
        PickGrows(code, start, rest, o, total, if next == 0 then first.id else next);
      } else {
        PickGrows(code, start, rest, o, total + 2 + |first.value|, next);
        SizeOfMore(first, DeviceId.Pick(code, start, rest, total + 2 + |first.value|, next).picked);
      }
    }
  }

  /** GREEDY. One object more at the end of the list: a stream's page is as before, with that object as well
      if it is not before the start and what the page holds leaves room for it in 253 bytes, ten of them the
      header's; and the object named as next is the first for which there was no room. */
  lemma PageGrows(code: u8, start: u8, objects: seq<Object>, o: Object)
    requires code != DeviceId.SPECIFIC && |o.value| <= 245 && forall i :: 0 <= i < |objects| ==> |objects[i].value| <= 245
    ensures var p, q := DeviceId.PageFrom(code, objects, start), DeviceId.PageFrom(code, objects + [o], start);
      && p.Page? && q.Page?
      && var room := 10 + DeviceId.Size(p.picked) + 2 + |o.value| <= 253;
      && q.picked == p.picked + (if o.id >= start && room then [o] else [])
      && q.next == if o.id >= start && !room && p.next == 0 then o.id else p.next
  {
    PickGrows(code, start, objects, o, DeviceId.PAGE_START, 0);
  }
}
