/** The awareness (presence) registry as the editor and the shell use it:
    an insertion-ordered map from client ID to presence record. Updating a
    client that is already present keeps its place in the iteration order,
    a new client is appended, and a removed client disappears. The local
    client's own record is always present. */
module Awareness {
  import opened Types

  /** One registry entry: a client and its current presence record. */
  datatype Entry = Entry(id: ClientId, state: AwarenessState)

  /** No client ID occurs twice: the registry is a map. */
  predicate DistinctIds(s: seq<Entry>)
  {
    forall i, j :: 0 <= i < j < |s| ==> s[i].id != s[j].id
  }

  /** Position of client `id` in iteration order, if it is present. */
  function IndexOf(s: seq<Entry>, id: ClientId): (r: Option<nat>)
    ensures r.Some? ==> r.value < |s| && s[r.value].id == id
    ensures r.None? <==> forall i :: 0 <= i < |s| ==> s[i].id != id
  {
    if s == [] then None
    else if s[0].id == id then Some(0)
    else match IndexOf(s[1..], id)
      case None => None
      case Some(k) => Some(k + 1)
  }

  /** `t` is `s` with the record of client `id` replaced by `st`, in place:
      same length, same order, every other entry untouched. */
  predicate UpdatedAt(s: seq<Entry>, t: seq<Entry>, id: ClientId, st: AwarenessState)
  {
    |t| == |s| &&
    forall i :: 0 <= i < |s| ==> t[i] == if s[i].id == id then Entry(id, st) else s[i]
  }

  /** Map `set`: replace the record of a present client in place, or append
      a new client at the end of the iteration order. */
  function Put(s: seq<Entry>, id: ClientId, st: AwarenessState): (r: seq<Entry>)
    requires DistinctIds(s)
    ensures DistinctIds(r)
    ensures IndexOf(s, id).Some? ==> UpdatedAt(s, r, id, st)
    ensures IndexOf(s, id).None? ==> r == s + [Entry(id, st)]
  {
    match IndexOf(s, id)
    case Some(k) => s[k := Entry(id, st)]
    case None => s + [Entry(id, st)]
  }

  /** Map `delete`: drop client `id`, keeping the others in order. */
  function Without(s: seq<Entry>, id: ClientId): (r: seq<Entry>)
    ensures |r| <= |s|
    ensures forall e :: e in r <==> e in s && e.id != id
  {
    if s == [] then []
    else if s[0].id == id then Without(s[1..], id)
    else [s[0]] + Without(s[1..], id)
  }

  /** Deleting a client keeps the others in their order: deleting from a
      concatenation deletes from each part and keeps the parts in sequence. */
  lemma {:induction false} WithoutAppend(s: seq<Entry>, t: seq<Entry>, id: ClientId)
    ensures Without(s + t, id) == Without(s, id) + Without(t, id)
  {
    if s == [] {
      assert s + t == t;
    } else {
      assert (s + t)[1..] == s[1..] + t;
      WithoutAppend(s[1..], t, id);
    }
  }

  /** Deleting a client keeps the remaining IDs distinct. */
  lemma {:induction false} WithoutDistinct(s: seq<Entry>, id: ClientId)
    requires DistinctIds(s)
    ensures DistinctIds(Without(s, id))
  {
    if s != [] {
      WithoutDistinct(s[1..], id);
      var rest := Without(s[1..], id);
      if s[0].id != id {
        forall e | e in rest ensures e.id != s[0].id {
          var k :| 0 <= k < |s[1..]| && s[1..][k] == e;
          assert s[k + 1] == e;
        }
        var r := [s[0]] + rest;
        forall i, j | 0 <= i < j < |r| ensures r[i].id != r[j].id {
          if i > 0 {
            assert r[i] == rest[i - 1] && r[j] == rest[j - 1];
          } else {
            assert r[j] in rest;
          }
        }
      }
    }
  }

  /** The registry seen from one connection. */
  class AwarenessRegistry {
    /** This connection's own client ID. */
    const localId: ClientId
    /** Every known client's record, in the map's iteration order. */
    var entries: seq<Entry>

    predicate Valid()
      reads this
    {
      DistinctIds(entries) && IndexOf(entries, localId).Some?
    }

    /** The local client's own record. */
    function LocalState(): AwarenessState
      reads this
      requires Valid()
    {
      entries[IndexOf(entries, localId).value].state
    }

    /** A new connection: only its own record, still empty. */
    constructor (id: ClientId)
      ensures Valid() && localId == id
      ensures entries == [Entry(id, EmptyState)]
    {
      localId := id;
      entries := [Entry(id, EmptyState)];
    }

    /** Replace the whole local record, in place. */
    method SetLocalState(st: AwarenessState)
      requires Valid()
      modifies this
      ensures Valid()
      ensures UpdatedAt(old(entries), entries, localId, st)
      ensures LocalState() == st
    {
      entries := Put(entries, localId, st);
    }

    /** Set the `focusedField` part of the local record; `user` keeps its value. */
    method SetLocalFocused(f: Option<FieldName>)
      requires Valid()
      modifies this
      ensures Valid()
      ensures UpdatedAt(old(entries), entries, localId, old(LocalState()).(focusedField := f))
      ensures LocalState() == AwarenessState(old(LocalState()).user, f)
    {
      SetLocalState(LocalState().(focusedField := f));
    }

    /** Set the `user` part of the local record; `focusedField` keeps its value. */
    method SetLocalUser(u: User)
      requires Valid()
      modifies this
      ensures Valid()
      ensures UpdatedAt(old(entries), entries, localId, old(LocalState()).(user := Some(u)))
      ensures LocalState() == AwarenessState(Some(u), old(LocalState()).focusedField)
    {
      SetLocalState(LocalState().(user := Some(u)));
    }

    /** A presence update from another client arrives: its record is
        replaced in place, or the client is appended if it is new. */
    method ApplyRemote(id: ClientId, st: AwarenessState)
      requires Valid() && id != localId
      modifies this
      ensures Valid()
      ensures IndexOf(old(entries), id).Some? ==> UpdatedAt(old(entries), entries, id, st)
      ensures IndexOf(old(entries), id).None? ==> entries == old(entries) + [Entry(id, st)]
      ensures LocalState() == old(LocalState())
    {
      ghost var k := IndexOf(entries, localId).value;
      entries := Put(entries, id, st);
      assert entries[k] == old(entries)[k];
    }

    /** Another client is gone (disconnected or timed out): its record is
        deleted, the others keep their order. */
    method RemoveClient(id: ClientId)
      requires Valid() && id != localId
      modifies this
      ensures Valid()
      ensures entries == Without(old(entries), id)
      ensures LocalState() == old(LocalState())
    {
      ghost var e := entries[IndexOf(entries, localId).value];
      WithoutDistinct(entries, id);
      entries := Without(entries, id);
      assert e in entries;
      var k := IndexOf(entries, localId).value;
      assert entries[k] == e;
    }
  }
}
