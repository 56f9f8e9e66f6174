/** The rule shared by `SessionManager.AddParticipant` and both `SessionParticipant.AddManager`s:
    a dictionary from a generated Guid to a peer descriptor, into which a descriptor is inserted
    only when no stored value `Equals` it, with one announcement per insertion. The classes in
    the session files update their dictionaries exactly as these functions say. */
module AddressBook {
  import opened Common
  import opened PeerInfo

  type Book = map<Guid, Info>

  /** `Values.Contains(d)`: some stored value `Equals` the descriptor. */
  function ContainsValue(book: Book, d: Info): (r: bool)
    ensures r <==> d in book.Values
  {
    exists id | id in book :: Equals(book[id], Some(d))
  }

  /** No two ids map to equal descriptors. */
  ghost predicate Unique(book: Book)
  {
    forall i, j | i in book && j in book && i != j :: book[i] != book[j]
  }

  /** The `ParticipantConnected` / `ManagerFound` event arguments. */
  datatype Announcement = Announcement(id: Guid, message: Option<string>)

  datatype Registration = Registration(book: Book, event: Option<Announcement>)

  /** Registering descriptor `d` with a freshly generated id: the dictionary gains `d` under
      `freshId` when no stored value equals `d` and the id is unused (`TryAdd` fails on a used
      id), and exactly then one announcement carries the new id and the message. */
  function Register(book: Book, d: Info, freshId: Guid, message: Option<string>): (r: Registration)
    ensures r.event.Some? <==> d !in book.Values && freshId !in book
    ensures r.event.Some? <==> r.book != book
    ensures r.event.Some? ==> r.event.value == Announcement(freshId, message) && freshId in r.book && r.book[freshId] == d
    ensures forall id | id in book :: id in r.book && r.book[id] == book[id]
    ensures r.book.Keys <= book.Keys + {freshId}
    ensures d in r.book.Values <==> d in book.Values || freshId !in book
    ensures Unique(book) ==> Unique(r.book)
  {
    if ContainsValue(book, d) || freshId in book then
      Registration(book, None)
    else
      assert freshId !in book.Keys;
      Registration(book[freshId := d], Some(Announcement(freshId, message)))
  }

  /** `Remove(id)` / `TryRemove(id, out _)`: true iff the id was present; only that entry goes. */
  function Unregister(book: Book, id: Guid): (r: (Book, bool))
    ensures r.1 <==> id in book
    ensures r.0.Keys == book.Keys - {id}
    ensures forall k | k in r.0 :: r.0[k] == book[k]
    ensures Unique(book) ==> Unique(r.0)
  {
    (book - {id}, id in book)
  }

  /** A second registration of a registered descriptor changes nothing and announces nothing. */
  lemma RegisterTwice(book: Book, d: Info, id1: Guid, m1: Option<string>, id2: Guid, m2: Option<string>)
    requires id1 !in book
    ensures var first := Register(book, d, id1, m1);
            Register(first.book, d, id2, m2) == Registration(first.book, None)
  {
  }

  /** Once its entry is removed, a descriptor registers again under a new id with a new
      announcement. This relies on uniqueness: with a second entry for the same descriptor,
      the removal would leave it known. */
  lemma ReRegisterAfterRemoval(book: Book, id: Guid, freshId: Guid, m: Option<string>)
    requires Unique(book) && id in book
    requires freshId !in book - {id}
    ensures var removed := Unregister(book, id).0;
            Register(removed, book[id], freshId, m).event == Some(Announcement(freshId, m))
  {
  }

  /** The announcements one registration raises: none or one. */
  function EventsOf(r: Registration): (events: seq<Announcement>)
    ensures |events| <= 1 && (events != [] <==> r.event.Some?)
    ensures events != [] ==> events[0] == r.event.value
  {
    if r.event.Some? then [r.event.value] else []
  }

  /** One discovered peer: the descriptor, the id the generator returned, the message. */
  datatype Request = Request(peer: Info, freshId: Guid, message: Option<string>)

  /** A run of registrations, with the announcements in the order they were raised. */
  function RegisterAll(book: Book, reqs: seq<Request>): (r: (Book, seq<Announcement>))
    decreases |reqs|
  {
    if reqs == [] then (book, [])
    else
      var step := Register(book, reqs[0].peer, reqs[0].freshId, reqs[0].message);
      var rest := RegisterAll(step.book, reqs[1..]);
      (rest.0, EventsOf(step) + rest.1)
  }

  /** Every generated id is new: unused by the dictionary and by every other request. */
  ghost predicate FreshIds(book: Book, reqs: seq<Request>)
  {
    (forall i | 0 <= i < |reqs| :: reqs[i].freshId !in book)
    && (forall i, j | 0 <= i < j < |reqs| :: reqs[i].freshId != reqs[j].freshId)
  }

  ghost function Peers(reqs: seq<Request>): set<Info>
  {
    set i | 0 <= i < |reqs| :: reqs[i].peer
  }

  /** The announcements carry pairwise different ids. */
  ghost predicate DistinctIds(anns: seq<Announcement>)
  {
    forall i, j | 0 <= i < j < |anns| :: anns[i].id != anns[j].id
  }

  lemma PeersCons(reqs: seq<Request>)
    requires reqs != []
    ensures Peers(reqs) == {reqs[0].peer} + Peers(reqs[1..])
  {
    forall d | d in Peers(reqs)
      ensures d in {reqs[0].peer} + Peers(reqs[1..])
    {
      var i :| 0 <= i < |reqs| && reqs[i].peer == d;
      if i > 0 {
        assert reqs[1..][i - 1] == reqs[i];
      }
    }
    forall d | d in Peers(reqs[1..])
      ensures d in Peers(reqs)
    {
      var i :| 0 <= i < |reqs[1..]| && reqs[1..][i].peer == d;
      assert reqs[i + 1].peer == d;
    }
  }

  lemma FreshIdsTail(book: Book, reqs: seq<Request>)
    requires FreshIds(book, reqs) && reqs != []
    ensures FreshIds(Register(book, reqs[0].peer, reqs[0].freshId, reqs[0].message).book, reqs[1..])
  {
    var step := Register(book, reqs[0].peer, reqs[0].freshId, reqs[0].message);
    forall i | 0 <= i < |reqs[1..]|
      ensures reqs[1..][i].freshId !in step.book
    {
      assert reqs[1..][i] == reqs[i + 1];
    }
  }

  /** Over any run of discoveries with fresh ids, the dictionary keeps every entry it had and
      ends up holding every discovered descriptor, each exactly once. */
  lemma {:induction false} RegisterAllKeepsBookUnique(book: Book, reqs: seq<Request>)
    requires Unique(book) && FreshIds(book, reqs)
    decreases |reqs|
    ensures var final := RegisterAll(book, reqs).0;
            && Unique(final)
            && (forall id | id in book :: id in final && final[id] == book[id])
            && final.Values == book.Values + Peers(reqs)
  {
    if reqs != [] {
      var step := Register(book, reqs[0].peer, reqs[0].freshId, reqs[0].message);
      FreshIdsTail(book, reqs);
      RegisterAllKeepsBookUnique(step.book, reqs[1..]);
      PeersCons(reqs);
      assert step.book.Values == book.Values + {reqs[0].peer};
    }
  }

  /** Each announcement names a key that the run added. */
  lemma {:induction false} RegisterAllAnnouncesNewKeys(book: Book, reqs: seq<Request>)
    decreases |reqs|
    ensures var r := RegisterAll(book, reqs);
            forall i | 0 <= i < |r.1| :: r.1[i].id in r.0 && r.1[i].id !in book
  {
    if reqs != [] {
      var step := Register(book, reqs[0].peer, reqs[0].freshId, reqs[0].message);
      RegisterAllAnnouncesNewKeys(step.book, reqs[1..]);
      RegisterAllKeepsKeys(step.book, reqs[1..]);
      var rest := RegisterAll(step.book, reqs[1..]);
      var anns := RegisterAll(book, reqs).1;
      var head := EventsOf(step);
      assert anns == head + rest.1;
      forall i | 0 <= i < |anns|
        ensures anns[i].id in rest.0 && anns[i].id !in book
      {
        if i < |head| {
          assert anns[i] == step.event.value;
        } else {
          assert anns[i] == rest.1[i - |head|];
        }
      }
    }
  }

  /** No id is announced twice. */
  lemma {:induction false} RegisterAllAnnouncesDistinctIds(book: Book, reqs: seq<Request>)
    decreases |reqs|
    ensures DistinctIds(RegisterAll(book, reqs).1)
  {
    if reqs != [] {
      var step := Register(book, reqs[0].peer, reqs[0].freshId, reqs[0].message);
      RegisterAllAnnouncesDistinctIds(step.book, reqs[1..]);
      RegisterAllAnnouncesNewKeys(step.book, reqs[1..]);
      var rest := RegisterAll(step.book, reqs[1..]);
      assert forall k | 0 <= k < |RegisterAll(step.book, reqs[1..]).1| :: RegisterAll(step.book, reqs[1..]).1[k].id !in step.book;
      var anns := RegisterAll(book, reqs).1;
      var head := EventsOf(step);
      assert anns == head + rest.1;
      forall i, j | 0 <= i < j < |anns|
        ensures anns[i].id != anns[j].id
      {
        if i < |head| {
          assert anns[i] == step.event.value && anns[j] == rest.1[j - 1];
        } else {
          assert anns[i] == rest.1[i - |head|] && anns[j] == rest.1[j - |head|];
        }
      }
    }
  }

  /** Every key the run added was announced. */
  lemma {:induction false} RegisterAllAnnouncesEveryNewKey(book: Book, reqs: seq<Request>)
    decreases |reqs|
    ensures var r := RegisterAll(book, reqs);
            forall id | id in r.0 && id !in book :: exists i | 0 <= i < |r.1| :: r.1[i].id == id
  {
    if reqs != [] {
      var step := Register(book, reqs[0].peer, reqs[0].freshId, reqs[0].message);
      RegisterAllAnnouncesEveryNewKey(step.book, reqs[1..]);
      var rest := RegisterAll(step.book, reqs[1..]);
      var (final, anns) := RegisterAll(book, reqs);
      var head := EventsOf(step);
      assert anns == head + rest.1 && final == rest.0;
      forall id | id in final && id !in book
        ensures exists i | 0 <= i < |anns| :: anns[i].id == id
      {
        if id in step.book {
          assert anns[0].id == id;
        } else {
          var k :| 0 <= k < |rest.1| && rest.1[k].id == id;
          assert anns[|head| + k].id == id;
        }
      }
    }
  }

  lemma {:induction false} RegisterAllKeepsKeys(book: Book, reqs: seq<Request>)
    decreases |reqs|
    ensures book.Keys <= RegisterAll(book, reqs).0.Keys
  {
    if reqs != [] {
      var step := Register(book, reqs[0].peer, reqs[0].freshId, reqs[0].message);
      RegisterAllKeepsKeys(step.book, reqs[1..]);
    }
  }
}
