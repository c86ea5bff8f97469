/**
 * The in-memory tea store of the Express exercise: a module-level array of
 * tea records and the counter that numbers them, and the five `/teas`
 * route handlers that read and change them. Each handler runs to
 * completion before the next one starts.
 */
module TeaApi {
  import opened Wrappers
  import opened JsBuiltins

  /** A stored record. The id is assigned by the server; name and price are
      copied from the request body. */
  datatype Tea = Tea(id: int, name: string, price: real)

  /** What a handler sends: one record, the whole list, or a text message. */
  datatype Body = OneTea(tea: Tea) | AllTeas(teas: seq<Tea>) | Text(message: string)

  datatype Reply = Reply(status: int, body: Body)

  const NotFoundReply := Reply(404, Text("Tea not found"))

  // ---------------------------------------------------------------------
  // The array operations the handlers use
  // ---------------------------------------------------------------------

  /** `teas.find(tea => tea.id === id)`, as the index of the record found:
      the first record whose id equals `id`. NaN (`None`) equals nothing. */
  function FindIndex(teas: seq<Tea>, id: Option<int>): (r: Option<nat>)
    ensures r.Some? ==> r.value < |teas| && id == Some(teas[r.value].id)
    ensures r.Some? ==> forall j :: 0 <= j < r.value ==> Some(teas[j].id) != id
    ensures r.None? <==> forall j :: 0 <= j < |teas| ==> Some(teas[j].id) != id
  {
    if id.None? || teas == [] then None
    else if teas[0].id == id.value then Some(0)
    else
      match FindIndex(teas[1..], id)
      case None => None
      case Some(k) => Some(k + 1)
  }

  /** `teas.filter(tea => tea.id !== id)`. */
  function WithoutId(teas: seq<Tea>, id: Option<int>): (r: seq<Tea>)
    ensures |r| <= |teas|
  {
    if teas == [] then []
    else if Some(teas[0].id) == id then WithoutId(teas[1..], id)
    else [teas[0]] + WithoutId(teas[1..], id)
  }

  /** Ids strictly increase along the array; in particular they are distinct. */
  ghost predicate IdsIncreasing(teas: seq<Tea>) {
    forall i, j :: 0 <= i < j < |teas| ==> teas[i].id < teas[j].id
  }

  /** The filter keeps exactly the records whose id differs from `id`. */
  lemma {:induction false} WithoutIdMembers(teas: seq<Tea>, id: Option<int>)
    ensures forall t :: t in WithoutId(teas, id) <==> t in teas && Some(t.id) != id
  {
    if teas != [] {
      WithoutIdMembers(teas[1..], id);
      assert teas == [teas[0]] + teas[1..];
    }
  }

  /** The records after the first still have increasing ids, all above
      the first record's id. */
  lemma IncreasingTail(teas: seq<Tea>)
    requires teas != [] && IdsIncreasing(teas)
    ensures IdsIncreasing(teas[1..])
    ensures forall j :: 0 <= j < |teas[1..]| ==> teas[0].id < teas[1..][j].id
  {
    forall a, b | 0 <= a < b < |teas[1..]| ensures teas[1..][a].id < teas[1..][b].id {
      assert teas[1..][a] == teas[a + 1] && teas[1..][b] == teas[b + 1];
    }
    forall j | 0 <= j < |teas[1..]| ensures teas[0].id < teas[1..][j].id {
      assert teas[1..][j] == teas[j + 1];
    }
  }

  /** A lower bound on every id survives the filter. */
  lemma {:induction false} WithoutIdAbove(teas: seq<Tea>, id: Option<int>, bound: int)
    requires forall j :: 0 <= j < |teas| ==> bound < teas[j].id
    ensures forall j :: 0 <= j < |WithoutId(teas, id)| ==> bound < WithoutId(teas, id)[j].id
  {
    if teas != [] {
      assert forall j :: 0 <= j < |teas[1..]| ==> teas[1..][j] == teas[j + 1];
      WithoutIdAbove(teas[1..], id, bound);
    }
  }

  /** Filtering keeps the ids in increasing order. */
  lemma {:induction false} WithoutIdIncreasing(teas: seq<Tea>, id: Option<int>)
    requires IdsIncreasing(teas)
    ensures IdsIncreasing(WithoutId(teas, id))
  {
    if teas != [] {
      var rest := WithoutId(teas[1..], id);
      IncreasingTail(teas);
      WithoutIdIncreasing(teas[1..], id);
      if Some(teas[0].id) != id {
        WithoutIdAbove(teas[1..], id, teas[0].id);
        var r := [teas[0]] + rest;
        assert WithoutId(teas, id) == r;
        forall i, j | 0 <= i < j < |r| ensures r[i].id < r[j].id {
          assert r[j] == rest[j - 1];
          if i > 0 {
            assert r[i] == rest[i - 1];
          }
        }
      }
    }
  }

  /** Filtering by an id that no record carries changes nothing. */
  lemma {:induction false} WithoutAbsentId(teas: seq<Tea>, id: Option<int>)
    requires forall j :: 0 <= j < |teas| ==> Some(teas[j].id) != id
    ensures WithoutId(teas, id) == teas
  {
    if teas != [] {
      WithoutAbsentId(teas[1..], id);
      assert teas == [teas[0]] + teas[1..];
    }
  }

  /** Filtering by the id of the record at `i`, when no other record carries
      that id, removes exactly that record and keeps the others in their
      order. */
  lemma {:induction false} WithoutFoundId(teas: seq<Tea>, id: Option<int>, i: nat)
    requires i < |teas| && Some(teas[i].id) == id
    requires forall j :: 0 <= j < |teas| && j != i ==> Some(teas[j].id) != id
    ensures WithoutId(teas, id) == teas[..i] + teas[i + 1..]
  {
    var tail := teas[1..];
    assert forall j :: 0 <= j < |tail| ==> tail[j] == teas[j + 1];
    if i == 0 {
      WithoutAbsentId(tail, id);
      assert teas[..0] + teas[1..] == tail;
    } else {
      WithoutFoundId(tail, id, i - 1);
      assert teas == [teas[0]] + tail;
      SpliceCons(teas[0], tail, i - 1);
    }
  }

  /** With increasing ids, the record at `i` is the only one with its id. */
  lemma IncreasingUnique(teas: seq<Tea>, i: nat)
    requires IdsIncreasing(teas) && i < |teas|
    ensures forall j :: 0 <= j < |teas| && j != i ==> Some(teas[j].id) != Some(teas[i].id)
  {
    forall j | 0 <= j < |teas| && j != i ensures teas[j].id != teas[i].id {
      if j < i { assert teas[j].id < teas[i].id; } else { assert teas[i].id < teas[j].id; }
    }
  }

  /** The elements of `s` with the one at `i` removed, position by position. */
  lemma RemovedAt<T>(s: seq<T>, i: nat, r: seq<T>)
    requires i < |s| && r == s[..i] + s[i + 1..]
    ensures |r| == |s| - 1
    ensures forall k :: 0 <= k < i ==> r[k] == s[k]
    ensures forall k :: i <= k < |r| ==> r[k] == s[k + 1]
  {
  }

  /** Removing element k + 1 from `[x] + s` is removing element k from `s`. */
  lemma SpliceCons<T>(x: T, s: seq<T>, k: nat)
    requires k < |s|
    ensures [x] + (s[..k] + s[k + 1..]) == ([x] + s)[..k + 1] + ([x] + s)[k + 2..]
  {
    assert ([x] + s)[..k + 1] == [x] + s[..k];
    assert ([x] + s)[k + 2..] == s[k + 1..];
  }

  // ---------------------------------------------------------------------
  // The store and its route handlers
  // ---------------------------------------------------------------------

  class TeaStore {
    /** `teaData`: the stored records, in insertion order. */
    var teas: seq<Tea>
    /** `nextId`: the id the next created record receives. */
    var nextId: int
    /** Every id ever handed out, including those of deleted records. */
    ghost var issued: set<int>

    /** The store's invariant: ids are issued from 1 upwards, each stored
        id was issued (so it is below `nextId`), and ids increase along the
        array (so they are unique). */
    ghost predicate Valid()
      reads this
    {
      && 1 <= nextId
      && (forall k :: k in issued <==> 1 <= k < nextId)
      && IdsIncreasing(teas)
      && (forall i :: 0 <= i < |teas| ==> teas[i].id in issued)
    }

    /** The state at start-up: `let teaData = []; let nextId = 1;`. */
    constructor ()
      ensures Valid()
      ensures teas == [] && nextId == 1 && issued == {}
    {
      teas := [];
      nextId := 1;
      issued := {};
    }

    /** POST /teas: a new record with id `nextId`, then `nextId` grows by one;
        the record is appended and sent back with 201. The new id was never
        issued before, so an id freed by a delete is never reused. */
    method Create(name: string, price: real) returns (reply: Reply)
      requires Valid()
      modifies this
      ensures Valid()
      ensures old(nextId) !in old(issued) && issued == old(issued) + {old(nextId)}
      ensures nextId == old(nextId) + 1
      ensures teas == old(teas) + [Tea(old(nextId), name, price)]
      ensures reply == Reply(201, OneTea(Tea(old(nextId), name, price)))
    {
      var tea := Tea(nextId, name, price);
      nextId := nextId + 1;
      issued := issued + {tea.id};
      teas := teas + [tea];
      reply := Reply(201, OneTea(tea));
    }

    /** GET /teas: the whole list, in insertion order. */
    method List() returns (reply: Reply)
      ensures reply == Reply(200, AllTeas(teas))
    {
      reply := Reply(200, AllTeas(teas));
    }

    /** GET /teas/:id: 200 with the record whose id equals `parseInt(id)`,
        404 when there is none; a parameter that is not a number finds
        nothing. */
    method Get(id: string) returns (reply: Reply)
      requires Valid()
      ensures reply.status == 200 || reply == NotFoundReply
      ensures reply.status == 200 <==> exists i :: 0 <= i < |teas| && ParseInt(id) == Some(teas[i].id)
      ensures reply.status == 200 ==>
        reply.body.OneTea? && reply.body.tea in teas && ParseInt(id) == Some(reply.body.tea.id)
      ensures ParseInt(id).None? ==> reply == NotFoundReply
    {
      match FindIndex(teas, ParseInt(id))
      case None =>
        reply := NotFoundReply;
      case Some(i) =>
        reply := Reply(200, OneTea(teas[i]));
    }

    /** PUT /teas/:id: 404 and no change when no record has the id;
        otherwise that record's name and price are overwritten in place
        (its id and position kept, every other record untouched) and the
        updated record is sent with 200. */
    method Update(id: string, name: string, price: real) returns (reply: Reply)
      requires Valid()
      modifies this
      ensures Valid()
      ensures nextId == old(nextId) && issued == old(issued)
      ensures FindIndex(old(teas), ParseInt(id)).None? ==>
        reply == NotFoundReply && teas == old(teas)
      ensures FindIndex(old(teas), ParseInt(id)).Some? ==>
        var i := FindIndex(old(teas), ParseInt(id)).value;
        && teas == old(teas)[i := Tea(old(teas)[i].id, name, price)]
        && reply == Reply(200, OneTea(teas[i]))
    {
      reply := UpdateKey(ParseInt(id), name, price);
    }

    /** The PUT handler once `parseInt(req.params.id)` is computed. */
    method UpdateKey(key: Option<int>, name: string, price: real) returns (reply: Reply)
      requires Valid()
      modifies this
      ensures Valid()
      ensures nextId == old(nextId) && issued == old(issued)
      ensures FindIndex(old(teas), key).None? ==>
        reply == NotFoundReply && teas == old(teas)
      ensures FindIndex(old(teas), key).Some? ==>
        var i := FindIndex(old(teas), key).value;
        && teas == old(teas)[i := Tea(old(teas)[i].id, name, price)]
        && reply == Reply(200, OneTea(teas[i]))
    {
      match FindIndex(teas, key)
      case None =>
        reply := NotFoundReply;
      case Some(i) =>
        var tea := teas[i].(name := name, price := price);
        ghost var before := teas;
        teas := teas[i := tea];
        assert forall k :: 0 <= k < |teas| ==> teas[k].id == before[k].id;
        reply := Reply(200, OneTea(tea));
    }

    /** DELETE /teas/:id: 404 and no change when no record has the id;
        otherwise the array is replaced by its filter without that id, which
        removes exactly the one record and keeps the others in order; the
        removed record is sent with 200. `nextId` never changes here. */
    method Delete(id: string) returns (reply: Reply)
      requires Valid()
      modifies this
      ensures Valid()
      ensures nextId == old(nextId) && issued == old(issued)
      ensures FindIndex(old(teas), ParseInt(id)).None? ==>
        reply == NotFoundReply && teas == old(teas)
      ensures FindIndex(old(teas), ParseInt(id)).Some? ==>
        var i := FindIndex(old(teas), ParseInt(id)).value;
        && teas == old(teas)[..i] + old(teas)[i + 1..]
        && reply == Reply(200, OneTea(old(teas)[i]))
      ensures FindIndex(teas, ParseInt(id)).None?
    {
      reply := DeleteKey(ParseInt(id));
    }

    /** The DELETE handler once `parseInt(req.params.id)` is computed. */
    method DeleteKey(key: Option<int>) returns (reply: Reply)
      requires Valid()
      modifies this
      ensures Valid()
      ensures nextId == old(nextId) && issued == old(issued)
      ensures FindIndex(old(teas), key).None? ==>
        reply == NotFoundReply && teas == old(teas)
      ensures FindIndex(old(teas), key).Some? ==>
        var i := FindIndex(old(teas), key).value;
        && teas == old(teas)[..i] + old(teas)[i + 1..]
        && reply == Reply(200, OneTea(old(teas)[i]))
      ensures FindIndex(teas, key).None?
    {
      match FindIndex(teas, key)
      case None =>
        reply := NotFoundReply;
      case Some(i) =>
        var tea := teas[i];
        ghost var before := teas;
        IncreasingUnique(before, i);
        WithoutFoundId(before, key, i);
        teas := WithoutId(teas, key);
        RemovedAt(before, i, teas);
        reply := Reply(200, OneTea(tea));
    }
  }

  /** A create, read, delete scenario on the route parameter "1". */
  method CreateReadDeleteScenario() {
    OneParsesAsOne();
    ScenarioAt("1");
  }

  /** A client's create, read, delete scenario, seen through the handlers'
      contracts: create then read back with id 1,
      delete then 404, a later create never reusing the deleted id, and an
      update of a missing id leaving everything as it was. `path` is any
      route parameter that `parseInt` reads as 1, such as "1" or "1abc". */
  method ScenarioAt(path: string)
    requires ParseInt(path) == Some(1)
  {
    var store := new TeaStore();
    var created := store.Create("Green", 5.0);
    assert created == Reply(201, OneTea(Tea(1, "Green", 5.0)));

    assert store.teas == [Tea(1, "Green", 5.0)] && ParseInt(path) == Some(store.teas[0].id);
    var got := store.Get(path);
    assert got == Reply(200, OneTea(Tea(1, "Green", 5.0)));

    var deleted := store.Delete(path);
    assert deleted == Reply(200, OneTea(Tea(1, "Green", 5.0)));
    got := store.Get(path);
    assert got == NotFoundReply;
    AfterDelete(store, path);
  }

  /** The rest of the scenario, on the emptied store: the next
      record gets id 2, and a PUT on the deleted id is a 404 that changes
      nothing. */
  method AfterDelete(store: TeaStore, path: string)
    requires store.Valid() && store.teas == [] && store.nextId == 2
    requires ParseInt(path) == Some(1)
    modifies store
  {
    var again := store.Create("Masala", 7.5);
    assert again.body.tea.id == 2;

    ghost var before := store.teas;
    var missing := store.Update(path, "Oolong", 3.0);
    assert missing == NotFoundReply && store.teas == before;
  }

  /** The route parameter "1" names the id 1. */
  lemma OneParsesAsOne()
    ensures ParseInt("1") == Some(1)
  {
    ParseDecimalPrefix(1, "");
    assert DecimalString(1) + "" == "1";
  }
}
