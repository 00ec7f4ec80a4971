/** Read Device Identification on the wire: the slave's answer, the master's check of it, and what
    the master reads out of it. */
module DeviceIdWire {
  import opened Bytes
  import opened Adus
  import opened DeviceObjects
  import DeviceId
  import Streams
  import S = Session
  import P = RtuPredict

  const MEI: byte := 0x0e

  // ---------------------------------------------------------------- the slave

  datatype Reply = Data(data: seq<byte>) | Exception(exception: DeviceId.Exception)

  function ByteOf(n: u8): byte { n as bv8 }

  function Conformity(objects: seq<Object>): byte {
    if objects == [] then 0x81
    else
      var max := objects[|objects| - 1].id;
      if max >= 0x80 then 0x83 else if max > 0x02 then 0x82 else 0x81
  }

  predicate Packable(objects: seq<Object>) { forall i :: 0 <= i < |objects| ==> |objects[i].value| < 256 }

  function NatOf(b: byte): u8 { b as nat }

  /** Ways of writing numbers below 256 as bytes and of reading them. */
  type Speller = u8 -> byte
  type Reader = byte -> u8

  ghost predicate Faithful(spell: Speller, read: Reader) {
    (forall n: u8 :: read(spell(n)) == n) && (forall b: byte :: spell(read(b)) == b)
  }

  lemma BytesAreFaithful()
    ensures Faithful(ByteOf, NatOf)
  {
    forall n: u8 ensures NatOf(ByteOf(n)) == n {
      ByteOfNat(n);
    }
    forall b: byte ensures ByteOf(NatOf(b)) == b {
      ByteOfEqual(b as nat, b);
    }
  }

  /** Each object as its id, its length and its value. */
  function PackWith(spell: Speller, objects: seq<Object>): seq<byte>
    requires Packable(objects)
  {
    if objects == [] then []
    else [spell(objects[0].id), spell(|objects[0].value|)] + objects[0].value + PackWith(spell, objects[1..])
  }

  function Pack(objects: seq<Object>): seq<byte>
    requires Packable(objects)
  {
    PackWith(ByteOf, objects)
  }

  function Header(code: byte, conformity: byte, mark: u8, next: byte, count: byte): seq<byte> {
    [MEI, code, conformity, if mark == 0 then 0x00 else 0xff, next, count]
  }

  /** What is picked can be packed and fits. */
  lemma PickedIsPackable(code: u8, objects: seq<Object>, start: u8)
    ensures var p := DeviceId.PageFrom(code, objects, start);
      p.Page? ==> |p.picked| < 256 && Packable(p.picked) && |Pack(p.picked)| <= 243
  {
    DeviceId.PickedFits(code, start, objects, DeviceId.PAGE_START, 0);
    var p := DeviceId.PageFrom(code, objects, start);
    if p.Page? {
      forall i | 0 <= i < |p.picked| ensures |p.picked[i].value| < 256 {
        assert p.picked[i] in p.picked;
      }
      PackSize(ByteOf, p.picked);
    }
  }

  lemma {:induction false} PackSize(spell: Speller, objects: seq<Object>)
    requires Packable(objects)
    ensures |PackWith(spell, objects)| == DeviceId.Size(objects) && 2 * |objects| <= DeviceId.Size(objects)
  {
    if objects != [] {
      PackSize(spell, objects[1..]);
    }
  }

  function Respond(code: byte, objects: seq<Object>, p: DeviceId.Page): Reply
    requires p.Page? ==> |p.picked| < 256 && Packable(p.picked)
  {
    match p
    case TooLong => Exception(DeviceId.ServerDeviceFailure)
    case Page(picked, next) =>
      Data(Header(code, Conformity(objects), next, ByteOf(next), ByteOf(|picked|)) + Pack(picked))
  }

  /** The answer to a request, given the objects the device has. */
  function Handle(request: seq<byte>, objects: seq<Object>): Reply {
    if |request| != 3 || request[0] != MEI then Exception(DeviceId.IllegalFunction)
    else
      var code, id := NatOf(request[1]), NatOf(request[2]);
      if code == 0 || code > DeviceId.SPECIFIC then Exception(DeviceId.IllegalDataValue)
      else if code == DeviceId.SPECIFIC && (DeviceId.Reserved(id) || !Has(objects, id)) then
        Exception(DeviceId.IllegalDataAddress)
      else
        var start := DeviceId.Effective(code, objects, id);
        PickedIsPackable(code, objects, start);
        Respond(request[1], objects, DeviceId.PageFrom(code, objects, start))
  }

  lemma PackCons(spell: Speller, o: Object, rest: seq<Object>)
    requires |o.value| < 256 && Packable(rest)
    ensures Packable([o] + rest)
    ensures PackWith(spell, [o] + rest) == [spell(o.id), spell(|o.value|)] + o.value + PackWith(spell, rest)
  {
    assert ([o] + rest)[1..] == rest;
  }

  lemma {:induction false} PackConcat(spell: Speller, a: seq<Object>, b: seq<Object>)
    requires Packable(a) && Packable(b)
    ensures Packable(a + b) && PackWith(spell, a + b) == PackWith(spell, a) + PackWith(spell, b)
    decreases |a|
  {
    if a == [] {
      assert a + b == b;
    } else {
      var o, rest := a[0], a[1..];
      PackConcat(spell, rest, b);
      PackCons(spell, o, rest + b);
      assert a + b == [o] + (rest + b);
      Streams.Regroup([spell(o.id), spell(|o.value|)] + o.value, PackWith(spell, rest), PackWith(spell, b));
    }
  }

  method PackObjects(objects: seq<Object>) returns (data: seq<byte>)
    requires Packable(objects)
    ensures data == Pack(objects)
  {
    data := [];
    for i := 0 to |objects|
      invariant data == Pack(objects[..i])
    {
      var o := objects[i];
      PackConcat(ByteOf, objects[..i], [o]);
      assert objects[..i + 1] == objects[..i] + [o] && [o][1..] == [];
      data := data + ([ByteOf(o.id), ByteOf(|o.value|)] + o.value);
    }
    assert objects[..|objects|] == objects;
  }

  /** The handler: the request is checked, the objects listed, a page built and packed. */
  method Answer(request: seq<byte>, identification: map<u8, seq<byte>>) returns (reply: Reply, objects: seq<Object>)
    ensures Sorted(objects) && Lists(objects, Merged(identification))
    ensures reply == Handle(request, objects)
  {
    objects := ListObjects(identification);
    if |request| != 3 || request[0] != MEI {
      return Exception(DeviceId.IllegalFunction), objects;
    }
    var code, id := NatOf(request[1]), NatOf(request[2]);
    if code == 0 || code > DeviceId.SPECIFIC {
      return Exception(DeviceId.IllegalDataValue), objects;
    }
    if code == DeviceId.SPECIFIC && (DeviceId.Reserved(id) || !Has(objects, id)) {
      return Exception(DeviceId.IllegalDataAddress), objects;
    }
    var start := DeviceId.Effective(code, objects, id);
    var page := DeviceId.BuildPage(code, objects, start);
    PickedIsPackable(code, objects, start);
    if page.TooLong? {
      return Exception(DeviceId.ServerDeviceFailure), objects;
    }
    var packed := PackObjects(page.picked);
    reply := Data(Header(request[1], Conformity(objects), page.next, ByteOf(page.next), ByteOf(|page.picked|)) + packed);
  }

  /** A device's objects as they come from its model decide the answer. */
  lemma AnswerIsDetermined(request: seq<byte>, identification: map<u8, seq<byte>>, a: seq<Object>, b: seq<Object>)
    requires Sorted(a) && Lists(a, Merged(identification)) && Sorted(b) && Lists(b, Merged(identification))
    ensures Handle(request, a) == Handle(request, b)
  {
    ListIsUnique(a, b, Merged(identification));
  }

  // ---------------------------------------------------------------- the master's check

  /** Where `count` objects beginning at `at` end. */
  function Walk(read: Reader, data: seq<byte>, at: nat, count: nat): Option<nat>
    decreases count
  {
    if count == 0 then Some(at)
    else if at + 2 > |data| then None
    else Walk(read, data, at + 2 + read(data[at + 1]), count - 1)
  }

  /** The data are six bytes and then as many objects as the last of the six says, and no more. */
  predicate WellFormed(data: seq<byte>) {
    |data| >= 6 && Walk(NatOf, data, 6, NatOf(data[5])) == Some(|data|)
  }

  function Inspect(code: byte, adu: Adu): S.Outcome {
    if |adu.data| >= 6 && adu.data[0] == MEI && adu.data[1] == code then
      match Walk(NatOf, adu.data, 6, NatOf(adu.data[5]))
      case None => S.NotEnough
      case Some(total) => S.NeedLength(total)
    else S.Fail(S.InvalidResponse)
  }

  function CheckDeviceId(code: byte): S.PreCheck { (adu: Adu) => Inspect(code, adu) }

  /** The loop of the check. */
  method InspectResponse(code: byte, adu: Adu) returns (o: S.Outcome)
    ensures o == CheckDeviceId(code)(adu)
  {
    var data := adu.data;
    if |data| < 6 || data[0] != MEI || data[1] != code {
      return S.Fail(S.InvalidResponse);
    }
    var count := NatOf(data[5]);
    var total: nat, idx: nat := 6, 6;
    for i := 0 to count
      invariant total == idx && Walk(NatOf, data, idx, count - i) == Walk(NatOf, data, 6, count)
    {
      if idx + 2 > |data| {
        return S.NotEnough;
      }
      var length := NatOf(data[idx + 1]);
      total := total + 2 + length;
      idx := idx + 2 + length;
    }
    return S.NeedLength(total);
  }

  lemma AcceptedIsWellFormed(code: byte, adu: Adu)
    ensures S.Judge(CheckDeviceId(code), adu) == S.Accept <==>
      WellFormed(adu.data) && adu.data[0] == MEI && adu.data[1] == code
  {}

  // ---------------------------------------------------------------- what the master reads

  datatype Identification = Identification(code: byte, conformity: byte, moreFollows: bool, next: byte,
                                           objects: seq<Object>)

  lemma {:induction false} WalkAdvances(read: Reader, data: seq<byte>, at: nat, count: nat)
    ensures Walk(read, data, at, count).Some? ==> at <= Walk(read, data, at, count).value
    decreases count
  {
    if count > 0 && at + 2 <= |data| {
      WalkAdvances(read, data, at + 2 + read(data[at + 1]), count - 1);
    }
  }

  /** The objects between `at` and the end of the data, which a walk has measured. */
  function Unpack(read: Reader, data: seq<byte>, at: nat, count: nat): (objects: seq<Object>)
    requires Walk(read, data, at, count) == Some(|data|)
    ensures |objects| == count
    decreases count
  {
    if count == 0 then []
    else
      var end := at + 2 + read(data[at + 1]);
      WalkAdvances(read, data, end, count - 1);
      [Object(read(data[at]), data[at + 2..end])] + Unpack(read, data, end, count - 1)
  }

  function Parsed(data: seq<byte>): Identification
    requires WellFormed(data)
  {
    Identification(data[1], data[2], data[3] == 0xff, data[4], Unpack(NatOf, data, 6, NatOf(data[5])))
  }

  /** The first of the objects ahead, and the others. */
  lemma UnpackStep(read: Reader, data: seq<byte>, at: nat, count: nat, end: nat, o: Object)
    requires count > 0 && at + 2 <= end <= |data| && end == at + 2 + read(data[at + 1])
    requires o == Object(read(data[at]), data[at + 2..end])
    ensures Walk(read, data, at, count) == Walk(read, data, end, count - 1)
    ensures Walk(read, data, at, count) == Some(|data|) ==>
      Unpack(read, data, at, count) == [o] + Unpack(read, data, end, count - 1)
  {}

  /** What is between `at` and the end is these objects. */
  ghost predicate Ahead(read: Reader, data: seq<byte>, at: nat, objects: seq<Object>) {
    Walk(read, data, at, |objects|) == Some(|data|) && Unpack(read, data, at, |objects|) == objects
  }

  /** One round of the loop. */
  lemma AheadRound(read: Reader, data: seq<byte>, at: nat, objects: seq<Object>)
    requires Ahead(read, data, at, objects) && objects != []
    ensures at + 2 <= |data| && at + 2 + read(data[at + 1]) <= |data|
    ensures objects[0] == Object(read(data[at]), data[at + 2..at + 2 + read(data[at + 1])])
    ensures Ahead(read, data, at + 2 + read(data[at + 1]), objects[1..])
  {
    AheadIsInBounds(read, data, at, |objects|);
    var end := at + 2 + read(data[at + 1]);
    UnpackStep(read, data, at, |objects|, end, Object(read(data[at]), data[at + 2..end]));
  }

  lemma AheadIsInBounds(read: Reader, data: seq<byte>, at: nat, count: nat)
    requires Walk(read, data, at, count) == Some(|data|) && count > 0
    ensures at + 2 <= |data| && at + 2 + read(data[at + 1]) <= |data|
  {
    WalkAdvances(read, data, at + 2 + read(data[at + 1]), count - 1);
  }

  /** The loop over the objects: every slice taken is within the data. */
  method UnpackObjects(read: Reader, data: seq<byte>, count: nat) returns (objects: seq<Object>)
    requires Walk(read, data, 6, count) == Some(|data|)
    ensures objects == Unpack(read, data, 6, count)
  {
    objects := [];
    var idx: nat := 6;
    ghost var all := Unpack(read, data, 6, count);
    assert all[0..] == all;
    for i := 0 to count
      invariant |all| == count && objects == all[..i] && Ahead(read, data, idx, all[i..])
    {
      AheadRound(read, data, idx, all[i..]);
      assert all[i..][0] == all[i] && all[i..][1..] == all[i + 1..];
      var end := idx + 2 + read(data[idx + 1]);
      objects := objects + [Object(read(data[idx]), data[idx + 2..end])];
      idx := end;
    }
    assert all[..count] == all;
  }

  /** What the master does with a response that passed its check. */
  method ParseResponse(code: byte, adu: Adu) returns (r: Identification)
    requires S.Judge(CheckDeviceId(code), adu) == S.Accept
    ensures WellFormed(adu.data) && r == Parsed(adu.data)
  {
    AcceptedIsWellFormed(code, adu);
    var objects := UnpackObjects(NatOf, adu.data, NatOf(adu.data[5]));
    r := Identification(adu.data[1], adu.data[2], adu.data[3] == 0xff, adu.data[4], objects);
  }

  // ---------------------------------------------------------------- inverses

  lemma SplitAt<T>(data: seq<T>, at: nat, end: nat)
    requires at + 2 <= end <= |data|
    ensures data[at..] == [data[at], data[at + 1]] + data[at + 2..end] + data[end..]
  {}

  /** Packing what was read gives back exactly the bytes it was read from. */
  lemma {:induction false} PackUnpack(spell: Speller, read: Reader, data: seq<byte>, at: nat, count: nat)
    requires Faithful(spell, read) && Walk(read, data, at, count) == Some(|data|)
    ensures at <= |data| && Packable(Unpack(read, data, at, count))
    ensures PackWith(spell, Unpack(read, data, at, count)) == data[at..]
    decreases count
  {
    if count == 0 {
      assert data[at..] == [];
    } else {
      AheadIsInBounds(read, data, at, count);
      var end := at + 2 + read(data[at + 1]);
      var o := Object(read(data[at]), data[at + 2..end]);
      UnpackStep(read, data, at, count, end, o);
      PackUnpack(spell, read, data, end, count - 1);
      SplitAt(data, at, end);
      PackCons(spell, o, Unpack(read, data, end, count - 1));
      assert spell(o.id) == data[at] && spell(|o.value|) == data[at + 1] by {
        assert |o.value| == read(data[at + 1]);
      }
    }
  }

  /** CHECKED IS READ. A response that passes the check is read without leaving its bounds, and what is
      read is exactly the ids and values packed in it. */
  lemma AcceptedIsExact(code: byte, adu: Adu)
    requires S.Judge(CheckDeviceId(code), adu) == S.Accept
    ensures WellFormed(adu.data)
    ensures var objects := Parsed(adu.data).objects;
      Packable(objects) && Pack(objects) == adu.data[6..] && |objects| == NatOf(adu.data[5])
  {
    AcceptedIsWellFormed(code, adu);
    BytesAreFaithful();
    PackUnpack(ByteOf, NatOf, adu.data, 6, NatOf(adu.data[5]));
  }

  lemma Joined<T>(front: seq<T>, h: T, l: T, value: seq<T>, tail: seq<T>)
    ensures var data, next := front + ([h, l] + value + tail), front + [h, l] + value;
      && data == next + tail && data[|front|] == h && data[|front| + 1] == l
      && |next| == |front| + 2 + |value| && data[|front| + 2..|next|] == value
  {}

  /** Reading what was packed gives back the objects. */
  lemma {:induction false} UnpackPack(spell: Speller, read: Reader, front: seq<byte>, objects: seq<Object>)
    requires Faithful(spell, read) && Packable(objects)
    ensures Ahead(read, front + PackWith(spell, objects), |front|, objects)
    decreases |objects|
  {
    if objects != [] {
      var o, rest := objects[0], objects[1..];
      var next := front + [spell(o.id), spell(|o.value|)] + o.value;
      Joined(front, spell(o.id), spell(|o.value|), o.value, PackWith(spell, rest));
      UnpackPack(spell, read, next, rest);
      assert objects == [o] + rest;
      AheadCons(read, next + PackWith(spell, rest), |front|, |next|, o, rest);
    } else {
      assert front + PackWith(spell, objects) == front;
    }
  }

  lemma AheadCons(read: Reader, data: seq<byte>, at: nat, end: nat, o: Object, rest: seq<Object>)
    requires at + 2 <= end <= |data| && end == at + 2 + read(data[at + 1])
    requires o == Object(read(data[at]), data[at + 2..end]) && Ahead(read, data, end, rest)
    ensures Ahead(read, data, at, [o] + rest)
  {
    UnpackStep(read, data, at, |rest| + 1, end, o);
  }

  lemma PageIsRead(header: seq<byte>, page: seq<Object>)
    requires |header| == 6 && Packable(page) && NatOf(header[5]) == |page|
    ensures var data := header + Pack(page);
      WellFormed(data) && Parsed(data) == Identification(header[1], header[2], header[3] == 0xff, header[4], page)
  {
    BytesAreFaithful();
    UnpackPack(ByteOf, NatOf, header, page);
    var data := header + Pack(page);
    assert data[1] == header[1] && data[2] == header[2] && data[3] == header[3];
    assert data[4] == header[4] && data[5] == header[5];
  }

  /** ROUND TRIP. Every answer with data passes the check of the master that asked, and the master
      reads exactly the page: its objects, and where the next one starts. */
  lemma MasterReadsPage(adu: Adu, code: byte, id: byte, objects: seq<Object>)
    requires Handle([MEI, code, id], objects) == Data(adu.data)
    ensures S.Judge(CheckDeviceId(code), adu) == S.Accept && WellFormed(adu.data) && |adu.data| <= 249
    ensures var p := DeviceId.PageFrom(NatOf(code), objects, DeviceId.Effective(NatOf(code), objects, NatOf(id)));
      && p.Page?
      && Parsed(adu.data).objects == p.picked
      && NatOf(Parsed(adu.data).next) == p.next
      && (Parsed(adu.data).moreFollows <==> p.next != 0)
  {
    var start := DeviceId.Effective(NatOf(code), objects, NatOf(id));
    var p := DeviceId.PageFrom(NatOf(code), objects, start);
    PickedIsPackable(NatOf(code), objects, start);
    BytesAreFaithful();
    assert NatOf(ByteOf(p.next)) == p.next && NatOf(ByteOf(|p.picked|)) == |p.picked|;
    AnswerIsRead(adu, code, Conformity(objects), p);
  }

  lemma AnswerIsRead(adu: Adu, code: byte, conformity: byte, p: DeviceId.Page)
    requires p.Page? && |p.picked| < 256 && Packable(p.picked) && |Pack(p.picked)| <= 243
    requires adu.data == Header(code, conformity, p.next, ByteOf(p.next), ByteOf(|p.picked|)) + Pack(p.picked)
    requires NatOf(ByteOf(|p.picked|)) == |p.picked|
    ensures S.Judge(CheckDeviceId(code), adu) == S.Accept && WellFormed(adu.data) && |adu.data| <= 249
    ensures Parsed(adu.data) == Identification(code, conformity, p.next != 0, ByteOf(p.next), p.picked)
  {
    var header := Header(code, conformity, p.next, ByteOf(p.next), ByteOf(|p.picked|));
    PageIsRead(header, p.picked);
    assert adu.data[0] == header[0] && adu.data[1] == header[1];
    AcceptedIsWellFormed(code, adu);
  }

  // ---------------------------------------------------------------- the length of the frame

  lemma {:induction false} PredictorWalks(frame: seq<byte>, data: seq<byte>, at: nat, count: nat)
    requires |frame| == |data| + 4 && forall i :: 0 <= i < |data| ==> frame[i + 2] == data[i]
    requires Walk(NatOf, data, at, count) == Some(|data|)
    ensures P.WalkObjects(frame, at + 2, count) == P.Length(|frame|)
    decreases count
  {
    if count > 0 {
      assert frame[at + 3] == data[at + 1];
      PredictorWalks(frame, data, at + 2 + NatOf(data[at + 1]), count - 1);
    }
  }

  /** The RTU receiver of a master measures every well-formed answer right. */
  lemma PredictedExactly(frame: seq<byte>, data: seq<byte>)
    requires WellFormed(data) && data[0] == MEI
    requires |frame| == |data| + 4 && frame[1] == 0x2b && forall i :: 0 <= i < |data| ==> frame[i + 2] == data[i]
    ensures P.PredictFrameLength(frame, true) == P.Length(|frame|)
  {
    assert frame[2] == data[0] && frame[7] == data[5];
    PredictorWalks(frame, data, 6, NatOf(data[5]));
  }
}
