/** The list of objects a device identifies itself by. */
module DeviceObjects {
  import opened Bytes

  type u8 = n: nat | n < 256

  datatype Object = Object(id: u8, value: seq<byte>)

  predicate Sorted(objects: seq<Object>) {
    forall i, j :: 0 <= i < j < |objects| ==> objects[i].id < objects[j].id
  }

  predicate Has(objects: seq<Object>, id: u8) { exists i :: 0 <= i < |objects| && objects[i].id == id }

  const NULL_VALUE: seq<byte> := [0x6e, 0x75, 0x6c, 0x6c]

  function Placeholders(): map<u8, seq<byte>> { map[0 := NULL_VALUE, 1 := NULL_VALUE, 2 := NULL_VALUE] }

  /** What the objects are: those of the model, and placeholders for the three mandatory ones. */
  function Merged(identification: map<u8, seq<byte>>): map<u8, seq<byte>> { Placeholders() + identification }

  predicate Distinct(objects: seq<Object>) {
    forall i, j :: 0 <= i < |objects| && 0 <= j < |objects| && i != j ==> objects[i].id != objects[j].id
  }

  /** The list holds exactly the entries of the map. */
  predicate Lists(objects: seq<Object>, m: map<u8, seq<byte>>) {
    && Distinct(objects)
    && (forall i :: 0 <= i < |objects| ==> objects[i].id in m && m[objects[i].id] == objects[i].value)
    && (forall id :: id in m ==> Has(objects, id))
  }

  method Position(objects: seq<Object>, id: u8) returns (at: Option<nat>)
    ensures at.Some? ==> at.value < |objects| && objects[at.value].id == id
    ensures at.None? ==> !Has(objects, id)
  {
    for i := 0 to |objects|
      invariant forall j :: 0 <= j < i ==> objects[j].id != id
    {
      if objects[i].id == id {
        return Some(i);
      }
    }
    return None;
  }

  lemma Replaced(objects: seq<Object>, m: map<u8, seq<byte>>, at: nat, o: Object)
    requires Lists(objects, m) && at < |objects| && objects[at].id == o.id
    ensures Lists(objects[at := o], m[o.id := o.value])
  {
    var after := objects[at := o];
    assert forall i :: 0 <= i < |objects| ==> after[i].id == objects[i].id;
    forall id | id in m[o.id := o.value] ensures Has(after, id) {
      assert Has(objects, id);
      var i :| 0 <= i < |objects| && objects[i].id == id;
      assert after[i].id == id;
    }
  }

  lemma Pushed(objects: seq<Object>, m: map<u8, seq<byte>>, o: Object)
    requires Lists(objects, m) && !Has(objects, o.id)
    ensures Lists(objects + [o], m[o.id := o.value])
  {
    var after := objects + [o];
    forall id | id in m[o.id := o.value] ensures Has(after, id) {
      if id == o.id {
        assert after[|objects|].id == id;
      } else {
        assert Has(objects, id);
        var i :| 0 <= i < |objects| && objects[i].id == id;
        assert after[i].id == id;
      }
    }
  }

  function Insert(o: Object, sorted: seq<Object>): seq<Object> {
    if sorted == [] || o.id <= sorted[0].id then [o] + sorted else [sorted[0]] + Insert(o, sorted[1..])
  }

  function SortById(objects: seq<Object>): seq<Object> {
    if objects == [] then [] else Insert(objects[0], SortById(objects[1..]))
  }

  lemma {:induction false} InsertSorted(o: Object, sorted: seq<Object>)
    requires Sorted(sorted) && forall p :: p in sorted ==> p.id != o.id
    ensures Sorted(Insert(o, sorted))
    ensures forall p :: p in Insert(o, sorted) <==> p == o || p in sorted
  {
    if sorted != [] && o.id > sorted[0].id {
      InsertSorted(o, sorted[1..]);
      var rest := Insert(o, sorted[1..]);
      forall p | p in rest ensures sorted[0].id < p.id {
        if p != o {
          assert p in sorted[1..];
        }
      }
      assert sorted == [sorted[0]] + sorted[1..];
    }
  }

  /** Sorting orders the list and neither adds nor loses an object. */
  lemma {:induction false} SortByIdSorts(objects: seq<Object>)
    requires Distinct(objects)
    ensures Sorted(SortById(objects))
    ensures forall p :: p in SortById(objects) <==> p in objects
  {
    if objects != [] {
      SortByIdSorts(objects[1..]);
      forall p | p in SortById(objects[1..]) ensures p.id != objects[0].id {
        assert p in objects[1..];
      }
      InsertSorted(objects[0], SortById(objects[1..]));
      assert objects == [objects[0]] + objects[1..];
    }
  }

  lemma SortedLists(objects: seq<Object>, m: map<u8, seq<byte>>)
    requires Lists(objects, m)
    ensures Sorted(SortById(objects)) && Lists(SortById(objects), m)
  {
    SortByIdSorts(objects);
    var after := SortById(objects);
    forall i | 0 <= i < |after| ensures after[i].id in m && m[after[i].id] == after[i].value {
      assert after[i] in objects;
    }
    forall id | id in m ensures Has(after, id) {
      assert Has(objects, id);
      var i :| 0 <= i < |objects| && objects[i].id == id;
      assert objects[i] in after;
    }
  }

  lemma DefaultsList()
    ensures Lists([Object(0, NULL_VALUE), Object(1, NULL_VALUE), Object(2, NULL_VALUE)], Placeholders())
  {
    var objects := [Object(0, NULL_VALUE), Object(1, NULL_VALUE), Object(2, NULL_VALUE)];
    assert objects[0].id == 0 && objects[1].id == 1 && objects[2].id == 2;
  }

  lemma MoveOver(listed: map<u8, seq<byte>>, left: map<u8, seq<byte>>, k: u8)
    requires k in left
    ensures listed[k := left[k]] + (left - {k}) == listed + left
    ensures (left - {k}).Keys == left.Keys - {k}
  {}

  method Put(objects: seq<Object>, k: u8, value: seq<byte>, ghost m: map<u8, seq<byte>>) returns (after: seq<Object>)
    requires Lists(objects, m)
    ensures Lists(after, m[k := value])
  {
    var o := Object(k, value);
    var at := Position(objects, k);
    if at.Some? {
      Replaced(objects, m, at.value, o);
      after := objects[at.value := o];
    } else {
      Pushed(objects, m, o);
      after := objects + [o];
    }
  }

  /** Placeholders, then the model's objects in whatever order they come, each replacing or added,
      then sorted. */
  method ListObjects(identification: map<u8, seq<byte>>) returns (objects: seq<Object>)
    ensures Sorted(objects) && Lists(objects, Merged(identification))
  {
    objects := [Object(0, NULL_VALUE), Object(1, NULL_VALUE), Object(2, NULL_VALUE)];
    var left := identification;
    ghost var listed, all := Placeholders(), Merged(identification);
    DefaultsList();
    while left.Keys != {}
      invariant Lists(objects, listed) && listed + left == all
      decreases |left.Keys|
    {
      var k :| k in left.Keys;
      MoveOver(listed, left, k);
      objects := Put(objects, k, left[k], listed);
      listed := listed[k := left[k]];
      left := left - {k};
    }
    NoneLeft(listed, left);
    SortedLists(objects, listed);
    objects := SortById(objects);
  }

  lemma NoneLeft(listed: map<u8, seq<byte>>, left: map<u8, seq<byte>>)
    requires left.Keys == {}
    ensures listed + left == listed
  {}

  lemma SameMembers(a: seq<Object>, b: seq<Object>, m: map<u8, seq<byte>>, o: Object)
    requires Lists(a, m) && Lists(b, m) && o in a
    ensures o in b
  {
    assert Has(b, o.id);
    var j :| 0 <= j < |b| && b[j].id == o.id;
    assert b[j] == o;
  }

  lemma NonemptyHasMember<T>(s: seq<T>)
    ensures s != [] ==> exists o :: o in s
  {
    if s != [] {
      assert s[0] in s;
    }
  }

  lemma {:induction false} SortedIsUnique(a: seq<Object>, b: seq<Object>)
    requires Sorted(a) && Sorted(b)
    requires (forall o :: o in a ==> o in b) && (forall o :: o in b ==> o in a)
    ensures a == b
    decreases |a|
  {
    if a == [] {
      NonemptyHasMember(b);
    } else {
      assert a[0] in b && b[0] in a;
      var i :| 0 <= i < |b| && b[i] == a[0];
      var j :| 0 <= j < |a| && a[j] == b[0];
      FirstIsLeast(b, i);
      FirstIsLeast(a, j);
      HeadsAgree(a, j);
      TailsAgree(a, b);
      TailsAgree(b, a);
      SortedIsUnique(a[1..], b[1..]);
      assert a == [a[0]] + a[1..] && b == [b[0]] + b[1..];
    }
  }

  lemma HeadsAgree(a: seq<Object>, j: nat)
    requires Sorted(a) && j < |a| && a[j].id <= a[0].id
    ensures a[j] == a[0]
  {}

  lemma TailsAgree(a: seq<Object>, b: seq<Object>)
    requires Sorted(a) && Sorted(b) && a != [] && b != [] && a[0] == b[0] && forall o :: o in a ==> o in b
    ensures forall o :: o in a[1..] ==> o in b[1..]
  {
    forall o | o in a[1..] ensures o in b[1..] {
      var i :| 0 <= i < |a[1..]| && a[1..][i] == o;
      assert a[i + 1] == o && a[0].id < o.id && o in a;
      assert b == [b[0]] + b[1..];
    }
  }

  /** There is only one such list. */
  lemma ListIsUnique(a: seq<Object>, b: seq<Object>, m: map<u8, seq<byte>>)
    requires Sorted(a) && Lists(a, m) && Sorted(b) && Lists(b, m)
    ensures a == b
  {
    forall o | o in a ensures o in b {
      SameMembers(a, b, m, o);
    }
    forall o | o in b ensures o in a {
      SameMembers(b, a, m, o);
    }
    SortedIsUnique(a, b);
  }

  /** So the list begins with object 0. */
  lemma ListBeginsWithZero(objects: seq<Object>, identification: map<u8, seq<byte>>)
    requires Sorted(objects) && Lists(objects, Merged(identification))
    ensures objects != [] && objects[0].id == 0
  {
    assert 0 in Merged(identification);
    assert Has(objects, 0);
    var i :| 0 <= i < |objects| && objects[i].id == 0;
    FirstIsLeast(objects, i);
  }

  lemma FirstIsLeast(objects: seq<Object>, i: nat)
    requires Sorted(objects) && i < |objects|
    ensures objects[0].id <= objects[i].id
  {}
}
