/** The shared text fields of the document, one character sequence per
    field name, changed by transactions that carry an origin tag. Only the
    effect a local edit has on this replica is modelled; merging concurrent
    edits from other replicas is not. */
module YText {
  import opened Types

  /** Who caused a transaction: a client, identified by its awareness ID,
      or the transport applying an update received from another replica. */
  datatype Origin = ClientOrigin(id: ClientId) | TransportOrigin

  /** The change notification an observer of a field receives: which field
      changed, and the origin of the transaction that changed it. */
  datatype TextEvent = TextEvent(field: FieldName, origin: Origin)

  /** Text with `length` characters removed from position `index`. */
  function Delete(s: string, index: nat, length: nat): (r: string)
    requires index + length <= |s|
    ensures |r| == |s| - length
    ensures forall k :: 0 <= k < index ==> r[k] == s[k]
    ensures forall k :: index <= k < |r| ==> r[k] == s[k + length]
  {
    s[..index] + s[index + length..]
  }

  /** Text with `content` inserted before position `index`. */
  function Insert(s: string, index: nat, content: string): (r: string)
    requires index <= |s|
    ensures |r| == |s| + |content|
    ensures forall k :: 0 <= k < index ==> r[k] == s[k]
    ensures forall k :: 0 <= k < |content| ==> r[index + k] == content[k]
    ensures forall k :: index <= k < |s| ==> r[k + |content|] == s[k]
  {
    s[..index] + content + s[index..]
  }

  /** Deleting everything and then inserting at the start leaves exactly
      the inserted text, whatever was there before. */
  lemma ClearThenInsert(s: string, v: string)
    ensures Insert(Delete(s, 0, |s|), 0, v) == v
  {
  }

  /** A field's text is displayed again only for a change this client did
      not make itself: its own edits are already on screen. */
  predicate ShouldRefresh(origin: Origin, localId: ClientId)
  {
    origin != ClientOrigin(localId)
  }

  /** The text fields of one replica of the document. */
  class TextStore {
    /** Text of every field that has been written; any other field is empty. */
    var texts: map<FieldName, string>

    /** The current text of a field (a field never written reads as empty). */
    function Read(field: FieldName): (r: string)
      reads this
      ensures field !in texts ==> r == []
    {
      if field in texts then texts[field] else []
    }

    /** An empty document. */
    constructor ()
      ensures texts == map[]
    {
      texts := map[];
    }

    /** One transaction, tagged `origin`, that deletes the whole text of
        `field` and inserts `newValue` at position 0. Every other field is
        untouched, and observers get a single event for the transaction. */
    method Replace(field: FieldName, newValue: string, origin: Origin) returns (ev: TextEvent)
      modifies this
      ensures texts == old(texts)[field := newValue]
      ensures Read(field) == newValue
      ensures forall g :: g != field ==> Read(g) == old(Read(g))
      ensures ev == TextEvent(field, origin)
    {
      var current := Read(field);
      texts := texts[field := Delete(current, 0, |current|)];
      texts := texts[field := Insert(texts[field], 0, newValue)];
      ClearThenInsert(current, newValue);
      ev := TextEvent(field, origin);
    }
  }
}
