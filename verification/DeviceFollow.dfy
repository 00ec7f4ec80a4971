/** Following the pages of Read Device Identification: ask for object 0, and then for what each page
    names as next. */
module DeviceFollow {
  import opened Bytes
  import opened DeviceObjects
  import opened DeviceId

  // ---------------------------------------------------------------- following

  /** Every list of objects is like this. */
  predicate Orderly(objects: seq<Object>) { Sorted(objects) && objects != [] && objects[0].id == 0 }

  /** The starts of the pages a master gets. */
  predicate Follows(code: u8, objects: seq<Object>, starts: seq<u8>) {
    && starts != [] && starts[0] == Effective(code, objects, 0)
    && forall k :: 0 <= k < |starts| - 1 ==>
         var p := PageFrom(code, objects, starts[k]);
         p.Page? && p.next != 0 && starts[k + 1] == Effective(code, objects, p.next)
  }

  function LastPage(code: u8, objects: seq<Object>, starts: seq<u8>): Page
    requires starts != []
  {
    PageFrom(code, objects, starts[|starts| - 1])
  }

  /** It is on the last of some pages followed. */
  ghost predicate Delivered(code: u8, objects: seq<Object>, o: Object) {
    exists starts ::
      Follows(code, objects, starts) && LastPage(code, objects, starts).Page? && o in LastPage(code, objects, starts).picked
  }

  /** Some page followed names no next one. */
  predicate IsEnd(code: u8, objects: seq<Object>, starts: seq<u8>) {
    Follows(code, objects, starts) && LastPage(code, objects, starts).Page? && LastPage(code, objects, starts).next == 0
  }

  ghost predicate Ends(code: u8, objects: seq<Object>) { exists starts :: IsEnd(code, objects, starts) }

  lemma FollowOneMore(code: u8, objects: seq<Object>, starts: seq<u8>, id: u8)
    requires Follows(code, objects, starts)
    requires var p := LastPage(code, objects, starts); p.Page? && p.next != 0 && id == Effective(code, objects, p.next)
    ensures Follows(code, objects, starts + [id])
  {
    var there := starts + [id];
    forall k | 0 <= k < |there| - 1
      ensures var q := PageFrom(code, objects, there[k]);
        q.Page? && q.next != 0 && there[k + 1] == Effective(code, objects, q.next)
    {
      if k < |starts| - 1 {
        assert there[k] == starts[k] && there[k + 1] == starts[k + 1];
      }
    }
  }

  // ---------------------------------------------------------------- the partition into pages

  ghost function IndexOf(objects: seq<Object>, id: u8): (i: nat)
    requires Has(objects, id)
    ensures i < |objects| && objects[i].id == id
  {
    var i :| 0 <= i < |objects| && objects[i].id == id;
    i
  }

  lemma IdsOrder(objects: seq<Object>, i: nat, j: nat)
    requires Sorted(objects) && i < |objects| && j < |objects| && objects[i].id < objects[j].id
    ensures i < j
  {}

  /** What a page leaves for the next begins at a later object, and the page holds all before it. */
  lemma NextAdvances(code: u8, objects: seq<Object>, i: nat)
    requires IsStream(code) && Sorted(objects) && AllPageable(objects) && i < |objects|
    ensures var p := PageFrom(code, objects, objects[i].id);
      && p.Page?
      && (p.next != 0 ==> Has(objects, p.next) && i < IndexOf(objects, p.next))
      && var end := if p.next == 0 then |objects| else IndexOf(objects, p.next);
         forall k :: i <= k < end ==> objects[k] in p.picked
  {
    var start := objects[i].id;
    var p := PageFrom(code, objects, start);
    PickedUpToMark(code, start, objects);
    MarkIsLater(code, start, objects, PAGE_START);
    if p.next != 0 {
      IdsOrder(objects, i, IndexOf(objects, p.next));
    }
    var end := if p.next == 0 then |objects| else IndexOf(objects, p.next);
    forall k | i <= k < end ensures objects[k] in p.picked {
      assert objects[k].id >= start;
      assert p.next != 0 ==> objects[k].id < p.next;
    }
  }

  /** The ids at which the pages break from the `i`th object on, each page beginning where the one before
      left off. */
  ghost function Boundaries(code: u8, objects: seq<Object>, i: nat): seq<u8>
    requires IsStream(code) && Sorted(objects) && AllPageable(objects) && i < |objects|
    decreases |objects| - i
  {
    NextAdvances(code, objects, i);
    var p := PageFrom(code, objects, objects[i].id);
    if p.next == 0 then [] else [p.next] + Boundaries(code, objects, IndexOf(objects, p.next))
  }

  ghost predicate AllReached(code: u8, objects: seq<Object>, i: nat)
    requires IsStream(code) && Sorted(objects) && AllPageable(objects) && i < |objects|
  {
    forall id :: id in Boundaries(code, objects, i) ==> Reaches(code, id)
  }

  lemma LaterReached(code: u8, objects: seq<Object>, i: nat)
    requires IsStream(code) && Sorted(objects) && AllPageable(objects) && i < |objects|
    requires PageFrom(code, objects, objects[i].id).Page?
    ensures var next := PageFrom(code, objects, objects[i].id).next;
      next == 0 ==> AllReached(code, objects, i)
    ensures var next := PageFrom(code, objects, objects[i].id).next;
      next != 0 ==> Has(objects, next) && (AllReached(code, objects, i) <==>
        Reaches(code, next) && AllReached(code, objects, IndexOf(objects, next)))
  {
    NextAdvances(code, objects, i);
    var next := PageFrom(code, objects, objects[i].id).next;
    if next != 0 {
      var later := Boundaries(code, objects, IndexOf(objects, next));
      assert Boundaries(code, objects, i) == [next] + later;
      assert next in [next] + later && forall id :: id in later ==> id in [next] + later;
    }
  }

  // ---------------------------------------------------------------- reached: it ends and delivers

  /** Once the pages have come to the `i`th object, going on delivers it and every later one, in no
      more pages than there are objects left. */
  lemma {:induction false} FollowFrom(code: u8, objects: seq<Object>, i: nat, here: seq<u8>) returns (starts: seq<u8>)
    requires IsStream(code) && Sorted(objects) && AllPageable(objects) && i < |objects| && AllReached(code, objects, i)
    requires Follows(code, objects, here) && here[|here| - 1] == objects[i].id
    ensures IsEnd(code, objects, starts) && |starts| < |here| + |objects| - i
    ensures forall k :: i <= k < |objects| ==> Delivered(code, objects, objects[k])
    decreases |objects| - i
  {
    var p := PageFrom(code, objects, objects[i].id);
    NextAdvances(code, objects, i);
    LaterReached(code, objects, i);
    var end := if p.next == 0 then |objects| else IndexOf(objects, p.next);
    forall k | i <= k < end ensures Delivered(code, objects, objects[k]) {
      assert Follows(code, objects, here) && objects[k] in LastPage(code, objects, here).picked;
    }
    starts := here;
    if p.next != 0 {
      ContinuesIffReached(code, objects, p.next);
      FollowOneMore(code, objects, here, p.next);
      starts := FollowFrom(code, objects, end, here + [p.next]);
    }
  }

  lemma StartIsZero(code: u8, objects: seq<Object>)
    requires IsStream(code) && Orderly(objects)
    ensures Effective(code, objects, 0) == 0 && Follows(code, objects, [0])
  {
    assert Has(objects, 0);
  }

  /** PAGING. If every value fits a page and the stream reaches every id at which pages break, following
      ends within as many pages as there are objects and delivers every object. */
  lemma FollowingDeliversAll(code: u8, objects: seq<Object>) returns (starts: seq<u8>)
    requires IsStream(code) && Orderly(objects) && AllPageable(objects) && AllReached(code, objects, 0)
    ensures IsEnd(code, objects, starts) && |starts| <= |objects|
    ensures forall o :: o in objects ==> Delivered(code, objects, o)
  {
    StartIsZero(code, objects);
    starts := FollowFrom(code, objects, 0, [0]);
  }

  /** So it does for an extended stream if no object has a reserved id, and for a basic or regular one if
      no object has an id beyond it. */
  lemma {:induction false} NothingBeyond(code: u8, objects: seq<Object>, i: nat)
    requires IsStream(code) && Sorted(objects) && AllPageable(objects) && i < |objects|
    requires forall k :: 0 <= k < |objects| ==> Reaches(code, objects[k].id)
    ensures AllReached(code, objects, i)
    decreases |objects| - i
  {
    NextAdvances(code, objects, i);
    LaterReached(code, objects, i);
    var next := PageFrom(code, objects, objects[i].id).next;
    if next != 0 {
      NothingBeyond(code, objects, IndexOf(objects, next));
    }
  }

  // ---------------------------------------------------------------- not reached: it never ends

  /** The pages followed from the `i`th object on, up to one whose next the stream does not reach. */
  ghost function Trail(code: u8, objects: seq<Object>, i: nat): (trail: seq<u8>)
    requires IsStream(code) && Sorted(objects) && AllPageable(objects) && i < |objects|
    ensures trail != [] && trail[0] == objects[i].id
    decreases |objects| - i
  {
    NextAdvances(code, objects, i);
    var p := PageFrom(code, objects, objects[i].id);
    [objects[i].id]
    + if p.next == 0 || !Reaches(code, p.next) then [] else Trail(code, objects, IndexOf(objects, p.next))
  }

  /** A page on the trail names no next one only if every boundary is reached; and what it names, if
      reached, is on the trail. */
  lemma {:induction false} TrailGoesOn(code: u8, objects: seq<Object>, i: nat, id: u8)
    requires IsStream(code) && Sorted(objects) && AllPageable(objects) && i < |objects| && id in Trail(code, objects, i)
    ensures var p := PageFrom(code, objects, id);
      && p.Page?
      && (p.next == 0 ==> AllReached(code, objects, i))
      && (p.next != 0 ==> Has(objects, p.next))
      && (p.next != 0 && Reaches(code, p.next) ==> p.next in Trail(code, objects, i))
    decreases |objects| - i
  {
    NextAdvances(code, objects, i);
    LaterReached(code, objects, i);
    var next := PageFrom(code, objects, objects[i].id).next;
    if id == objects[i].id {
      if next != 0 && Reaches(code, next) {
        assert Trail(code, objects, IndexOf(objects, next))[0] == next;
      }
    } else {
      TrailGoesOn(code, objects, IndexOf(objects, next), id);
    }
  }

  /** Every page followed is on the trail from object 0: where the stream does not reach, it starts again
      there. */
  lemma {:induction false} FollowsTrail(code: u8, objects: seq<Object>, starts: seq<u8>, k: nat)
    requires IsStream(code) && Orderly(objects) && AllPageable(objects)
    requires Follows(code, objects, starts) && k < |starts|
    ensures starts[k] in Trail(code, objects, 0)
    decreases k
  {
    StartIsZero(code, objects);
    if k > 0 {
      FollowsTrail(code, objects, starts, k - 1);
      TrailGoesOn(code, objects, 0, starts[k - 1]);
      var n, p := k - 1, PageFrom(code, objects, starts[k - 1]);
      assert starts[n + 1] == Effective(code, objects, p.next) && p.next != 0;
      ContinuesIffReached(code, objects, p.next);
    }
  }

  /** NEVER ENDS. If the stream does not reach some id at which pages break, then however far the pages
      are followed there is always a next one. */
  lemma AlwaysMore(code: u8, objects: seq<Object>, starts: seq<u8>)
    requires IsStream(code) && Orderly(objects) && AllPageable(objects) && !AllReached(code, objects, 0)
    requires Follows(code, objects, starts)
    ensures var p := LastPage(code, objects, starts);
      p.Page? && p.next != 0 && Follows(code, objects, starts + [Effective(code, objects, p.next)])
  {
    FollowsTrail(code, objects, starts, |starts| - 1);
    TrailGoesOn(code, objects, 0, starts[|starts| - 1]);
    FollowOneMore(code, objects, starts, Effective(code, objects, LastPage(code, objects, starts).next));
  }

  lemma DeliveredFits(code: u8, objects: seq<Object>, o: Object)
    requires Delivered(code, objects, o)
    ensures |o.value| <= 241
  {
    var starts :| Follows(code, objects, starts) && LastPage(code, objects, starts).Page?
               && o in LastPage(code, objects, starts).picked;
    if |o.value| > 241 {
      LongIsNeverSent(code, objects, starts[|starts| - 1], o);
    }
  }

  /** PAGING, exactly. Following a stream ends and delivers every object if and only if every value has at
      most 241 bytes and the stream reaches every id at which pages break. */
  lemma FollowingWorksIff(code: u8, objects: seq<Object>)
    requires IsStream(code) && Orderly(objects)
    ensures Ends(code, objects) && (forall o :: o in objects ==> Delivered(code, objects, o))
       <==> AllPageable(objects) && AllReached(code, objects, 0)
  {
    if AllPageable(objects) && AllReached(code, objects, 0) {
      var starts := FollowingDeliversAll(code, objects);
      assert IsEnd(code, objects, starts);
    } else if Ends(code, objects) && forall o :: o in objects ==> Delivered(code, objects, o) {
      forall i | 0 <= i < |objects| ensures |objects[i].value| <= 241 {
        DeliveredFits(code, objects, objects[i]);
      }
      var starts :| IsEnd(code, objects, starts);
      AlwaysMore(code, objects, starts);
    }
  }

  /** In a stream that reaches every object, all of them are delivered exactly if all values fit. */
  lemma DeliversAllIffPageable(code: u8, objects: seq<Object>)
    requires IsStream(code) && Orderly(objects) && forall k :: 0 <= k < |objects| ==> Reaches(code, objects[k].id)
    ensures (forall o :: o in objects ==> Delivered(code, objects, o)) <==> AllPageable(objects)
  {
    if AllPageable(objects) {
      NothingBeyond(code, objects, 0);
      var _ := FollowingDeliversAll(code, objects);
    } else {
      var i :| 0 <= i < |objects| && |objects[i].value| > 241;
      assert objects[i] in objects;
      if Delivered(code, objects, objects[i]) {
        DeliveredFits(code, objects, objects[i]);
      }
    }
  }

  // ---------------------------------------------------------------- a device that cannot be followed

  /** The three placeholders and one object of the regular range. */
  function FourObjects(value: seq<byte>): seq<Object> {
    [Object(0, NULL_VALUE), Object(1, NULL_VALUE), Object(2, NULL_VALUE), Object(3, value)]
  }

  lemma FourOnAPage(value: seq<byte>)
    requires 223 < |value| <= 241
    ensures var objects := FourObjects(value);
      PageFrom(BASIC, objects, 0) == Page(objects[..3], 3) && Effective(BASIC, objects, 3) == 0
  {
    var objects := FourObjects(value);
    var a, b, c, d := objects[0], objects[1], objects[2], objects[3];
    assert objects[1..] == [b, c, d] && [b, c, d][1..] == [c, d] && [c, d][1..] == [d] && [d][1..] == [];
    assert |NULL_VALUE| == 4;
    assert Pick(BASIC, 0, [d], 28, 0) == Page([], 3);
    assert Pick(BASIC, 0, [c, d], 22, 0) == Page([c], 3);
    assert Pick(BASIC, 0, [b, c, d], 16, 0) == Page([b, c], 3);
    assert objects[..3] == [a, b, c];
    assert objects[0].id == 0;
    assert Has(objects, 0);
  }

  /** A basic stream of a device with one such object: every page followed is the first one, which always
      names object 3 as next, and object 3 is never delivered. */
  lemma {:induction false} BasicGoesRound(value: seq<byte>, starts: seq<u8>, k: nat)
    requires 223 < |value| <= 241 && Follows(BASIC, FourObjects(value), starts) && k < |starts|
    ensures starts[k] == 0 && PageFrom(BASIC, FourObjects(value), starts[k]).Page?
    ensures PageFrom(BASIC, FourObjects(value), starts[k]).next == 3
    decreases k
  {
    FourOnAPage(value);
    if k > 0 {
      BasicGoesRound(value, starts, k - 1);
    } else {
      assert FourObjects(value)[0].id == 0;
      assert Has(FourObjects(value), 0);
    }
  }

  lemma BasicNeverDelivers(value: seq<byte>)
    requires 223 < |value| <= 241
    ensures Orderly(FourObjects(value)) && AllPageable(FourObjects(value))
    ensures !Ends(BASIC, FourObjects(value)) && !Delivered(BASIC, FourObjects(value), Object(3, value))
  {
    var objects := FourObjects(value);
    forall starts | Follows(BASIC, objects, starts)
      ensures LastPage(BASIC, objects, starts) == Page(objects[..3], 3)
    {
      BasicGoesRound(value, starts, |starts| - 1);
      FourOnAPage(value);
    }
    forall i | 0 <= i < 3 ensures objects[..3][i].id < 3 {}
    assert Object(3, value) !in objects[..3];
  }
}
