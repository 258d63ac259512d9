/** The sidebar's room directory: the list of room ids kept under the
    `rooms` key of local storage. `saveRoom` adds an id at the end, at most
    five ids are kept and none twice; deleting a room filters its id out.
    Both page components run these same two steps. */
module Directory {

  /** The sidebar keeps at most this many rooms. */
  const MaxRooms := 5

  /** The room everyone can join, and the room page's default. */
  const PublicRoom := "public"

  /** The alert shown when a sixth room is refused. */
  const CapacityAlert := "You can only keep up to 5 rooms in your sidebar."

  predicate NoDuplicates(rooms: seq<string>)
  {
    forall i, j :: 0 <= i < j < |rooms| ==> rooms[i] != rooms[j]
  }

  /** What `saveRoom(id)` does with the stored list: nothing when the id is
      already there, the capacity alert when five or more ids are stored,
      otherwise a push at the end. */
  datatype SaveOutcome = AlreadySaved | Full | Appended

  function Outcome(stored: seq<string>, id: string): SaveOutcome
  {
    if id in stored then AlreadySaved
    else if |stored| >= MaxRooms then Full
    else Appended
  }

  /** The stored list after `saveRoom(id)`: the old list, or the old list with
      `id` pushed at the end when it was missing and there was room. */
  function Saved(stored: seq<string>, id: string): (r: seq<string>)
    ensures |r| >= |stored| && r[..|stored|] == stored
    ensures id in r <==> id in stored || |stored| < MaxRooms
    ensures id in stored || |stored| >= MaxRooms ==> r == stored
    ensures |r| <= |stored| + 1 && forall x :: x in r ==> x in stored || x == id
  {
    if Outcome(stored, id) == Appended then stored + [id] else stored
  }

  /** A list without duplicates stays without duplicates. */
  lemma SaveKeepsNoDuplicates(stored: seq<string>, id: string)
    requires NoDuplicates(stored)
    ensures NoDuplicates(Saved(stored, id))
  {
  }

  /** A list within the cap stays within the cap. */
  lemma SaveKeepsCap(stored: seq<string>, id: string)
    requires |stored| <= MaxRooms
    ensures |Saved(stored, id)| <= MaxRooms
  {
  }

  /** Saving the same id a second time changes nothing. */
  lemma SaveIdempotent(stored: seq<string>, id: string)
    ensures Saved(Saved(stored, id), id) == Saved(stored, id)
  {
  }

  /** `rooms.filter(r => r !== id)`: every occurrence of `id` dropped, the
      other entries kept with their multiplicities. */
  function Removed(rooms: seq<string>, id: string): (r: seq<string>)
    ensures |r| <= |rooms|
    ensures forall x :: x in r <==> x in rooms && x != id
    ensures multiset(r) == multiset(rooms)[id := 0]
  {
    if rooms == [] then []
    else
      assert rooms == [rooms[0]] + rooms[1..];
      (if rooms[0] == id then [] else [rooms[0]]) + Removed(rooms[1..], id)
  }

  /** Filtering works piece by piece, so the entries that stay keep their
      relative order. */
  lemma {:induction false} RemovedDistributes(a: seq<string>, b: seq<string>, id: string)
    ensures Removed(a + b, id) == Removed(a, id) + Removed(b, id)
  {
    if a != [] {
      var head := if a[0] == id then [] else [a[0]];
      assert (a + b)[0] == a[0] && (a + b)[1..] == a[1..] + b;
      assert Removed(a + b, id) == head + Removed(a[1..] + b, id);
      RemovedDistributes(a[1..], b, id);
      assert Removed(a, id) == head + Removed(a[1..], id);
    } else {
      assert a + b == b;
    }
  }

  /** Deleting an id that is not listed leaves the list as it is. */
  lemma {:induction false} RemovedAbsent(rooms: seq<string>, id: string)
    requires id !in rooms
    ensures Removed(rooms, id) == rooms
  {
    if rooms != [] {
      RemovedAbsent(rooms[1..], id);
      assert rooms == [rooms[0]] + rooms[1..];
    }
  }

  /** A second delete of the same id changes nothing. */
  lemma RemovedIdempotent(rooms: seq<string>, id: string)
    ensures Removed(Removed(rooms, id), id) == Removed(rooms, id)
  {
    RemovedAbsent(Removed(rooms, id), id);
  }

  /** Filtering keeps a list free of duplicates. */
  lemma {:induction false} RemovedKeepsNoDuplicates(rooms: seq<string>, id: string)
    requires NoDuplicates(rooms)
    ensures NoDuplicates(Removed(rooms, id))
  {
    if rooms != [] {
      RemovedKeepsNoDuplicates(rooms[1..], id);
      var tail := Removed(rooms[1..], id);
      assert rooms[0] !in rooms[1..];
      assert rooms[0] !in tail;
    }
  }

  /** Saving a new id and then deleting it gives back the list as it was. */
  lemma SaveThenRemove(stored: seq<string>, id: string)
    requires id !in stored
    ensures Removed(Saved(stored, id), id) == stored
  {
    if |stored| < MaxRooms {
      RemovedDistributes(stored, [id], id);
      RemovedAbsent(stored, id);
      assert Removed([id], id) == [];
    } else {
      RemovedAbsent(stored, id);
    }
  }
}
