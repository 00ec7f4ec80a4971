/** Read Device Identification on the slave: the pages the objects are sent in, and following them.
    Section 6.21 of MODBUS Application Protocol V1.1b3. */
module DeviceId {
  import opened DeviceObjects

  const BASIC: u8 := 1
  const REGULAR: u8 := 2
  const EXTENDED: u8 := 3
  const SPECIFIC: u8 := 4

  datatype Exception = IllegalFunction | IllegalDataAddress | IllegalDataValue | ServerDeviceFailure

  // ---------------------------------------------------------------- where a page starts

  predicate Reserved(id: u8) { 0x06 < id < 0x80 }

  /** The object asked for, or the first one when the code does not reach it. */
  function Asked(code: u8, id: u8): u8 {
    if code == BASIC then (if id > 0x02 || Reserved(id) then 0 else id)
    else if code == REGULAR then (if id > 0x06 then 0 else id)
    else if code == EXTENDED then (if Reserved(id) then 0 else id)
    else id
  }

  /** Where the page answering a request starts. */
  function Effective(code: u8, objects: seq<Object>, id: u8): u8 {
    var asked := Asked(code, id);
    if Has(objects, asked) then asked else 0
  }

  predicate IsStream(code: u8) { code in {BASIC, REGULAR, EXTENDED} }

  /** The objects a stream can be asked for. */
  predicate Reaches(code: u8, id: u8) {
    (code == BASIC && id <= 0x02) || (code == REGULAR && id <= 0x06) || (code == EXTENDED && !Reserved(id))
  }

  /** Asking a stream for the object a page ended at continues there exactly if the code reaches that
      object; otherwise it starts again with the first page. */
  lemma ContinuesIffReached(code: u8, objects: seq<Object>, id: u8)
    requires IsStream(code) && Has(objects, id) && id != 0
    ensures Effective(code, objects, id) == if Reaches(code, id) then id else 0
  {}

  // ---------------------------------------------------------------- one page

  const MAX_VALUE: nat := 245
  const PAGE_START: nat := 10
  const PAGE_LIMIT: nat := 253

  /** The objects of a page, and where the next one starts: 0 if there is none. */
  datatype Page = Page(picked: seq<Object>, next: u8) | TooLong

  function Add(o: Object, p: Page): Page {
    match p
    case Page(picked, next) => Page([o] + picked, next)
    case TooLong => TooLong
  }

  /** The rest of the page, `total` bytes being used and `next` being the first object left out. */
  function Pick(code: u8, start: u8, objects: seq<Object>, total: nat, next: u8): Page {
    if objects == [] then Page([], next)
    else
      var o, rest := objects[0], objects[1..];
      if o.id < start then Pick(code, start, rest, total, next)
      else if |o.value| > MAX_VALUE then TooLong
      else if total + 2 + |o.value| > PAGE_LIMIT then Pick(code, start, rest, total, if next == 0 then o.id else next)
      else if code == SPECIFIC then Page([o], next)
      else Add(o, Pick(code, start, rest, total + 2 + |o.value|, next))
  }

  function PageFrom(code: u8, objects: seq<Object>, start: u8): Page {
    Pick(code, start, objects, PAGE_START, 0)
  }

  function After(before: seq<Object>, p: Page): Page {
    match p
    case Page(picked, next) => Page(before + picked, next)
    case TooLong => TooLong
  }

  /** The loop of the handler. */
  method BuildPage(code: u8, objects: seq<Object>, start: u8) returns (page: Page)
    ensures page == PageFrom(code, objects, start)
  {
    var picked: seq<Object>, total: nat, next: u8 := [], PAGE_START, 0;
    AfterNothing(PageFrom(code, objects, start));
    assert objects[0..] == objects;
    for i := 0 to |objects|
      invariant After(picked, Pick(code, start, objects[i..], total, next)) == PageFrom(code, objects, start)
    {
      var o := objects[i];
      assert objects[i..][1..] == objects[i + 1..];
      if o.id < start {
        continue;
      }
      if |o.value| > MAX_VALUE {
        return TooLong;
      }
      if total + 2 + |o.value| > PAGE_LIMIT {
        if next == 0 {
          next := o.id;
        }
        continue;
      }
      AfterAdd(picked, o, Pick(code, start, objects[i + 1..], total + 2 + |o.value|, next));
      total := total + 2 + |o.value|;
      picked := picked + [o];
      if code == SPECIFIC {
        return Page(picked, next);
      }
    }
    assert picked + [] == picked;
    return Page(picked, next);
  }

  lemma AfterNothing(p: Page)
    ensures After([], p) == p
  {
    if p.Page? {
      assert [] + p.picked == p.picked;
    }
  }

  lemma AfterAdd(before: seq<Object>, o: Object, p: Page)
    ensures After(before, Add(o, p)) == After(before + [o], p)
  {
    if p.Page? {
      assert before + ([o] + p.picked) == (before + [o]) + p.picked;
    }
  }

  // ---------------------------------------------------------------- what a page holds

  function Size(objects: seq<Object>): nat {
    if objects == [] then 0 else 2 + |objects[0].value| + Size(objects[1..])
  }

  predicate AllPageable(objects: seq<Object>) {
    forall i :: 0 <= i < |objects| ==> |objects[i].value| <= 241
  }

  /** A page is made of the objects, fits its limit, and holds no more of them than there are. */
  lemma {:induction false} PickedFits(code: u8, start: u8, objects: seq<Object>, total: nat, next: u8)
    requires total <= PAGE_LIMIT
    ensures var p := Pick(code, start, objects, total, next);
      p.Page? ==>
        && total + Size(p.picked) <= PAGE_LIMIT && |p.picked| <= |objects|
        && forall o :: o in p.picked ==> o in objects && o.id >= start && total + 2 + |o.value| <= PAGE_LIMIT
  {
    if objects != [] {
      var o, rest := objects[0], objects[1..];
      var later := if next == 0 then o.id else next;
      PickedFits(code, start, rest, total, next);
      PickedFits(code, start, rest, total, later);
      if total + 2 + |o.value| <= PAGE_LIMIT {
        PickedFits(code, start, rest, total + 2 + |o.value|, next);
      }
      assert objects == [o] + rest;
    }
  }

  /** Once an object has been left out, later ones do not move the mark. */
  lemma {:induction false} MarkStays(code: u8, start: u8, objects: seq<Object>, total: nat, next: u8)
    requires next != 0
    ensures var p := Pick(code, start, objects, total, next); p.Page? ==> p.next == next
  {
    if objects != [] {
      MarkStays(code, start, objects[1..], total, next);
      MarkStays(code, start, objects[1..], total + 2 + |objects[0].value|, next);
    }
  }

  /** Every object from the start up to the mark, or to the end if there is no mark. */
  ghost predicate UpToMark(start: u8, objects: seq<Object>, p: Page)
    requires p.Page?
  {
    forall k :: 0 <= k < |objects| && objects[k].id >= start && (p.next == 0 || objects[k].id < p.next) ==>
      objects[k] in p.picked
  }

  lemma {:induction false} BeforeMark(code: u8, start: u8, objects: seq<Object>, total: nat, k: nat)
    requires code != SPECIFIC && Sorted(objects) && AllPageable(objects) && k < |objects| && objects[k].id >= start
    requires total == PAGE_START || objects[0].id != 0
    ensures var p := Pick(code, start, objects, total, 0);
      p.Page? && (p.next == 0 || objects[k].id < p.next ==> objects[k] in p.picked)
  {
    NeverTooLong(code, start, objects, total, 0);
    var o, rest := objects[0], objects[1..];
    FirstIsLeast(objects, k);
    if total + 2 + |o.value| > PAGE_LIMIT && o.id >= start {
      MarkStays(code, start, rest, total, o.id);
    } else if k > 0 {
      assert rest[k - 1] == objects[k] && objects[0].id < objects[1].id;
      BeforeMark(code, start, rest, if o.id < start then total else total + 2 + |o.value|, k - 1);
    }
  }

  lemma PickedUpToMark(code: u8, start: u8, objects: seq<Object>)
    requires code != SPECIFIC && Sorted(objects) && AllPageable(objects)
    ensures var p := PageFrom(code, objects, start); p.Page? && UpToMark(start, objects, p)
  {
    NeverTooLong(code, start, objects, PAGE_START, 0);
    forall k | 0 <= k < |objects| && objects[k].id >= start
      ensures var p := PageFrom(code, objects, start); p.next == 0 || objects[k].id < p.next ==> objects[k] in p.picked
    {
      BeforeMark(code, start, objects, PAGE_START, k);
    }
  }

  /** The mark is an object after the one the page starts at. */
  lemma {:induction false} MarkIsLater(code: u8, start: u8, objects: seq<Object>, total: nat)
    requires code != SPECIFIC && Sorted(objects) && AllPageable(objects)
    requires total == PAGE_START || (objects != [] ==> objects[0].id > start)
    ensures var p := Pick(code, start, objects, total, 0);
      p.Page? && (p.next != 0 ==> p.next > start && Has(objects, p.next))
  {
    NeverTooLong(code, start, objects, total, 0);
    if objects != [] {
      var o, rest := objects[0], objects[1..];
      assert objects == [o] + rest && (rest != [] ==> o.id < rest[0].id);
      if total + 2 + |o.value| > PAGE_LIMIT && o.id >= start {
        MarkStays(code, start, rest, total, o.id);
        assert Has(objects, o.id) by { assert objects[0].id == o.id; }
      } else {
        var used := if o.id < start then total else total + 2 + |o.value|;
        MarkIsLater(code, start, rest, used);
        HasMore(o, rest, Pick(code, start, rest, used, 0).next);
      }
    }
  }

  lemma HasMore(o: Object, rest: seq<Object>, id: u8)
    ensures Has(rest, id) ==> Has([o] + rest, id)
  {
    if Has(rest, id) {
      var i :| 0 <= i < |rest| && rest[i].id == id;
      assert ([o] + rest)[i + 1].id == id;
    }
  }

  lemma {:induction false} NeverTooLong(code: u8, start: u8, objects: seq<Object>, total: nat, next: u8)
    requires AllPageable(objects)
    ensures Pick(code, start, objects, total, next).Page?
  {
    if objects != [] {
      var later := if next == 0 then objects[0].id else next;
      NeverTooLong(code, start, objects[1..], total, next);
      NeverTooLong(code, start, objects[1..], total, later);
      NeverTooLong(code, start, objects[1..], total + 2 + |objects[0].value|, next);
    }
  }

  /** The object a page starts at is the first it holds. */
  lemma {:induction false} StartIsPicked(code: u8, objects: seq<Object>, i: nat)
    requires Sorted(objects) && i < |objects| && |objects[i].value| <= 241
    ensures var p := PageFrom(code, objects, objects[i].id);
      p.Page? ==> p.picked != [] && p.picked[0] == objects[i]
    ensures code == SPECIFIC ==> PageFrom(code, objects, objects[i].id) == Page([objects[i]], 0)
    decreases |objects|
  {
    if i > 0 {
      assert objects[0].id < objects[i].id && objects[1..][i - 1] == objects[i];
      StartIsPicked(code, objects[1..], i - 1);
      assert PageFrom(code, objects, objects[i].id) == PageFrom(code, objects[1..], objects[i].id);
    }
  }

  /** An object of more than 241 bytes is never sent, by any request. */
  lemma LongIsNeverSent(code: u8, objects: seq<Object>, start: u8, o: Object)
    requires |o.value| > 241
    ensures var p := PageFrom(code, objects, start); p.Page? ==> o !in p.picked
  {
    PickedFits(code, start, objects, PAGE_START, 0);
  }

  /** Access to one object answers with that object exactly if its value has at most 241 bytes. */
  lemma SpecificIffPageable(objects: seq<Object>, i: nat)
    requires Sorted(objects) && i < |objects|
    ensures PageFrom(SPECIFIC, objects, objects[i].id) == Page([objects[i]], 0) <==> |objects[i].value| <= 241
  {
    if |objects[i].value| <= 241 {
      StartIsPicked(SPECIFIC, objects, i);
    } else {
      LongIsNeverSent(SPECIFIC, objects, objects[i].id, objects[i]);
      assert objects[i] in [objects[i]];
    }
  }

  /** Too long for any page, but not refused. */
  predicate LeftOut(o: Object) { 241 < |o.value| <= MAX_VALUE }

  lemma {:induction false} SpecificScan(start: u8, objects: seq<Object>, next: u8, k: nat)
    requires k <= |objects| && forall j :: 0 <= j < |objects| ==> objects[j].id >= start
    requires (forall j :: 0 <= j < k ==> LeftOut(objects[j])) && (k < |objects| ==> !LeftOut(objects[k]))
    ensures var p := Pick(SPECIFIC, start, objects, PAGE_START, next);
      if k == |objects| then p.Page? && p.picked == []
      else if |objects[k].value| > MAX_VALUE then p.TooLong?
      else p.Page? && p.picked == [objects[k]]
    decreases k
  {
    if k > 0 {
      SpecificScan(start, objects[1..], if next == 0 then objects[0].id else next, k - 1);
    }
  }

  /** INDIVIDUAL ACCESS, in every case. Let the `k`th object be the first, from the one asked for on, that
      is not left out. The answer holds that object, whichever was asked for; it is an exception if that
      object is longer than the guard; and it is an empty page if there is no such object. */
  lemma {:induction false} SpecificAnswers(objects: seq<Object>, i: nat, k: nat)
    requires Sorted(objects) && i < |objects| && i <= k <= |objects|
    requires (forall j :: i <= j < k ==> LeftOut(objects[j])) && (k < |objects| ==> !LeftOut(objects[k]))
    ensures var p := PageFrom(SPECIFIC, objects, objects[i].id);
      if k == |objects| then p.Page? && p.picked == []
      else if |objects[k].value| > MAX_VALUE then p.TooLong?
      else p.Page? && p.picked == [objects[k]]
    decreases i
  {
    if i == 0 {
      forall j | 0 <= j < |objects| ensures objects[j].id >= objects[0].id {
        FirstIsLeast(objects, j);
      }
      SpecificScan(objects[0].id, objects, 0, k);
    } else {
      assert objects[0].id < objects[i].id && objects[1..][i - 1] == objects[i];
      SpecificAnswers(objects[1..], i - 1, k - 1);
      assert PageFrom(SPECIFIC, objects, objects[i].id) == PageFrom(SPECIFIC, objects[1..], objects[i].id);
    }
  }
}
