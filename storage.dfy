/** The in-memory note store: a map from id to note and a counter that hands
    out ids, with list, get, create, update and delete. */
module Storage {
  import opened Schema

  /** JavaScript's `a || b` on an optional string: an absent or empty value
      falls back to the default. */
  function OrDefault(s: Option<string>, default: string): (r: string)
    ensures s.Some? && s.value != "" ==> r == s.value
    ensures s.None? || s.value == "" ==> r == default
  {
    if s.Some? && s.value != "" then s.value else default
  }

  /** The note that createNote stores under `id` at time `now`. */
  function NewNote(id: int, ins: InsertNote, now: int): (n: Note)
    ensures n.id == id && n.createdAt == now && n.updatedAt == now
    ensures n.title != ""
    ensures ins.title.Some? && ins.title.value != "" ==> n.title == ins.title.value
    ensures ins.title.None? || ins.title.value == "" ==> n.title == DefaultTitle
    ensures ins.content.Some? ==> n.content == ins.content.value
    ensures ins.content.None? ==> n.content == ""
  {
    Note(id, OrDefault(ins.title, DefaultTitle), OrDefault(ins.content, ""), now, now)
  }

  /** The note that updateNote stores: the supplied fields overwrite the
      existing ones, with no default, and updatedAt becomes `now`. */
  function Merge(existing: Note, upd: UpdateNote, now: int): (n: Note)
    ensures n.id == existing.id && n.createdAt == existing.createdAt
    ensures n.updatedAt == now
    ensures n.title == (if upd.title.Some? then upd.title.value else existing.title)
    ensures n.content == (if upd.content.Some? then upd.content.value else existing.content)
  {
    var t := if upd.title.Some? then upd.title.value else existing.title;
    var c := if upd.content.Some? then upd.content.value else existing.content;
    existing.(title := t, content := c, updatedAt := now)
  }

  /** Most recently updated first. */
  predicate SortedByRecency(s: seq<Note>) {
    forall i, j :: 0 <= i < j < |s| ==> s[i].updatedAt >= s[j].updatedAt
  }

  /** A note no older than the head of a list sorted by recency can go in
      front of it. */
  lemma ConsSorted(x: Note, s: seq<Note>)
    requires SortedByRecency(s)
    requires s != [] ==> s[0].updatedAt <= x.updatedAt
    ensures SortedByRecency([x] + s)
  {
  }

  /** Inserts `n` into a list sorted by recency, keeping it sorted. */
  function InsertByRecency(s: seq<Note>, n: Note): (r: seq<Note>)
    requires SortedByRecency(s)
    ensures SortedByRecency(r)
    ensures multiset(r) == multiset(s) + multiset{n}
    ensures r[0] == n || (s != [] && r[0] == s[0])
  {
    if s == [] || n.updatedAt >= s[0].updatedAt then
      ConsSorted(n, s);
      [n] + s
    else
      assert s == [s[0]] + s[1..];
      var rest := InsertByRecency(s[1..], n);
      ConsSorted(s[0], rest);
      [s[0]] + rest
  }

  /** Every note in `m` is stored under its own id. */
  ghost predicate StoredUnderOwnId(m: map<int, Note>) {
    forall id :: id in m ==> m[id].id == id
  }

  /** A non-empty map has a key. */
  lemma SomeKey<V>(m: map<int, V>)
    requires m != map[]
    ensures exists k :: k in m
  {
    if forall k :: k !in m {
      assert false;
    }
  }

  /** A value of a map is stored under some key. */
  lemma KeyOf<V>(m: map<int, V>, v: V)
    requires v in m.Values
    ensures exists k :: k in m && m[k] == v
  {
    if forall k :: k in m ==> m[k] != v {
      assert false;
    }
  }

  /** Taking one entry out of a map whose notes sit under their own ids takes
      exactly that note out of its values. */
  lemma TakeValue(m: map<int, Note>, k: int)
    requires StoredUnderOwnId(m) && k in m
    ensures StoredUnderOwnId(m - {k})
    ensures multiset((m - {k}).Values) + multiset{m[k]} == multiset(m.Values)
    ensures |m - {k}| == |m| - 1
  {
    var rest := m - {k};
    forall other | other in rest ensures rest[other] != m[k] { }
    assert m[k] !in rest.Values;
    forall v | v in m.Values ensures v in rest.Values || v == m[k] {
      KeyOf(m, v);
      var j :| j in m && m[j] == v;
      if j != k {
        assert j in rest && rest[j] == v;
      }
    }
    forall v | v in rest.Values ensures v in m.Values {
      KeyOf(rest, v);
      var j :| j in rest && rest[j] == v;
      assert j in m && m[j] == v;
    }
    assert m.Values == rest.Values + {m[k]};
  }

  class MemStorage {
    var notes: map<int, Note>
    var currentId: nat
    /** Every id that createNote has ever handed out. */
    ghost var issued: set<int>

    /** Each note is stored under its own id; every stored id was issued; the
        issued ids are exactly 1 .. currentId - 1. */
    ghost predicate Valid()
      reads this
    {
      && 1 <= currentId
      && (forall i :: i in issued <==> 1 <= i < currentId)
      && (forall id :: id in notes ==> id in issued)
      && StoredUnderOwnId(notes)
    }

    constructor ()
      ensures Valid()
      ensures notes == map[] && currentId == 1 && issued == {}
    {
      notes := map[];
      currentId := 1;
      issued := {};
    }

    /** The stored notes in some order (`Array.from(notes.values())`). */
    method Values() returns (vals: seq<Note>)
      requires Valid()
      ensures multiset(vals) == multiset(notes.Values)
      ensures |vals| == |notes|
    {
      var rest := notes;
      vals := [];
      while rest != map[]
        invariant StoredUnderOwnId(rest)
        invariant multiset(vals) + multiset(rest.Values) == multiset(notes.Values)
        invariant |vals| + |rest| == |notes|
        decreases |rest|
      {
        SomeKey(rest);
        var k :| k in rest;
        TakeValue(rest, k);
        vals := vals + [rest[k]];
        rest := rest - {k};
      }
    }

    /** Every stored note, most recently updated first. */
    method GetNotes() returns (r: seq<Note>)
      requires Valid()
      ensures SortedByRecency(r)
      ensures multiset(r) == multiset(notes.Values)
      ensures |r| == |notes|
    {
      var vals := Values();
      r := [];
      for i := 0 to |vals|
        invariant SortedByRecency(r)
        invariant multiset(r) == multiset(vals[..i])
      {
        assert vals[..i + 1] == vals[..i] + [vals[i]];
        r := InsertByRecency(r, vals[i]);
      }
      assert vals[..|vals|] == vals;
      assert |r| == |multiset(r)|;
    }

    /** The note stored under `id`, if any. */
    method GetNote(id: int) returns (r: Option<Note>)
      requires Valid()
      ensures id in notes <==> r.Some?
      ensures r.Some? ==> r.value == notes[id] && r.value.id == id
    {
      if id in notes {
        r := Some(notes[id]);
      } else {
        r := None;
      }
    }

    /** Stores a new note under the current counter value, which is then
        incremented: an id is never handed out twice, even after deletes. */
    method CreateNote(ins: InsertNote, now: int) returns (n: Note)
      requires Valid()
      modifies this
      ensures Valid()
      ensures n == NewNote(old(currentId), ins, now)
      ensures currentId == old(currentId) + 1
      ensures n.id !in old(issued) && issued == old(issued) + {n.id}
      ensures n.id !in old(notes)
      ensures notes == old(notes)[n.id := n]
    {
      n := NewNote(currentId, ins, now);
      issued := issued + {currentId};
      currentId := currentId + 1;
      notes := notes[n.id := n];
    }

    /** Merges the supplied fields into the note stored under `id`; an absent
        id changes nothing and yields None. */
    method UpdateNote(id: int, upd: UpdateNote, now: int) returns (r: Option<Note>)
      requires Valid()
      modifies this
      ensures Valid()
      ensures currentId == old(currentId) && issued == old(issued)
      ensures id !in old(notes) ==> r == None && notes == old(notes)
      ensures id in old(notes) ==>
                r == Some(Merge(old(notes)[id], upd, now)) && notes == old(notes)[id := r.value]
    {
      if id !in notes {
        return None;
      }
      var updated := Merge(notes[id], upd, now);
      notes := notes[id := updated];
      r := Some(updated);
    }

    /** Removes the note stored under `id` and reports whether there was one. */
    method DeleteNote(id: int) returns (removed: bool)
      requires Valid()
      modifies this
      ensures Valid()
      ensures removed <==> id in old(notes)
      ensures notes == old(notes) - {id}
      ensures currentId == old(currentId) && issued == old(issued)
    {
      removed := id in notes;
      notes := notes - {id};
    }
  }

  /** Creating after any number of deletes still yields a fresh id, and a
      second delete of the same id reports false. */
  method CreateDeleteScenario(s: MemStorage, ins: InsertNote, now: int)
    requires s.Valid()
    modifies s
  {
    var a := s.CreateNote(ins, now);
    var gone := s.DeleteNote(a.id);
    assert gone;
    var again := s.DeleteNote(a.id);
    assert !again;
    var b := s.CreateNote(ins, now);
    assert b.id == a.id + 1;
    var got := s.GetNote(b.id);
    assert got == Some(b);
  }

  /** The values of a map holding three entries. */
  lemma ValuesOfThree(m: map<int, Note>, x: Note, y: Note, z: Note)
    requires m == map[1 := x, 2 := y, 3 := z]
    ensures m.Values == {x, y, z}
  {
    forall v | v in m.Values ensures v == x || v == y || v == z {
      KeyOf(m, v);
    }
    assert m[1] in m.Values && m[2] in m.Values && m[3] in m.Values;
  }

  /** The only list of three notes with distinct update times that is ordered
      by recency. */
  lemma SortedThree(r: seq<Note>, x: Note, y: Note, z: Note)
    requires SortedByRecency(r) && multiset(r) == multiset{x, y, z}
    requires x.updatedAt > y.updatedAt > z.updatedAt
    ensures r == [x, y, z]
  {
    assert |r| == 3;
    assert r[0] in multiset(r) && r[1] in multiset(r) && r[2] in multiset(r);
  }

  /** Notes A, B and C created in that order and A then updated are listed
      as A, C, B. */
  method ListOrderScenario()
  {
    var s := new MemStorage();
    var a := s.CreateNote(InsertNote(Some("A"), None), 1);
    var b := s.CreateNote(InsertNote(Some("B"), None), 2);
    var c := s.CreateNote(InsertNote(Some("C"), None), 3);
    var a' := s.UpdateNote(a.id, UpdateNote(None, Some("edited")), 4);
    var listed := s.GetNotes();
    ValuesOfThree(s.notes, a'.value, b, c);
    SortedThree(listed, a'.value, c, b);
    assert listed == [a'.value, c, b];
  }
}
