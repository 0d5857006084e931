/** One editable field (app/components/FieldEditor.tsx): the soft lock it
    derives from the awareness registry, the focus and blur updates it
    makes to the local presence record, the force-unlock button, and the
    whole-text replace it performs on every keystroke. */
module FieldEditor {
  import opened Types
  import opened Awareness
  import opened YText

  /** Entry `e` claims `field` against the observer `localId`: it is
      another client's record and it is focused on that field. */
  predicate Claims(e: Entry, localId: ClientId, field: FieldName)
  {
    e.id != localId && e.state.focusedField == Some(field)
  }

  /** Position of the last claiming entry in iteration order, if any. */
  function LastClaim(s: seq<Entry>, localId: ClientId, field: FieldName): (r: Option<nat>)
    ensures r.Some? ==> r.value < |s| && Claims(s[r.value], localId, field)
    ensures r.Some? ==> forall j :: r.value < j < |s| ==> !Claims(s[j], localId, field)
    ensures r.None? <==> forall j :: 0 <= j < |s| ==> !Claims(s[j], localId, field)
    decreases |s|
  {
    if s == [] then None
    else if Claims(s[|s| - 1], localId, field) then Some(|s| - 1)
    else LastClaim(s[..|s| - 1], localId, field)
  }

  /** The lock view: the user of the last other client focused on `field`,
      or `None` when no other client is. Never stored, always derived. */
  function LockHolder(s: seq<Entry>, localId: ClientId, field: FieldName): (r: Option<User>)
    ensures r.Some? ==> exists i :: 0 <= i < |s| && Claims(s[i], localId, field) && s[i].state.user == r
    ensures (forall j :: 0 <= j < |s| ==> !Claims(s[j], localId, field)) ==> r == None
  {
    match LastClaim(s, localId, field)
    case None => None
    case Some(i) => s[i].state.user
  }

  /** Last match wins: the claimant after which no entry claims the field
      decides the holder, including when that claimant has no user yet. */
  lemma LastMatchWins(s: seq<Entry>, localId: ClientId, field: FieldName, i: nat)
    requires i < |s| && Claims(s[i], localId, field)
    requires forall j :: i < j < |s| ==> !Claims(s[j], localId, field)
    ensures LastClaim(s, localId, field) == Some(i)
    ensures LockHolder(s, localId, field) == s[i].state.user
  {
  }

  /** The field is locked exactly when some other client is focused on it
      with a chosen account and no later entry in iteration order claims it. */
  lemma LockedIff(s: seq<Entry>, localId: ClientId, field: FieldName)
    ensures LockHolder(s, localId, field).Some? <==>
      exists i :: 0 <= i < |s| && Claims(s[i], localId, field) && s[i].state.user.Some? &&
        forall j :: i < j < |s| ==> !Claims(s[j], localId, field)
  {
  }

  /** Self-exclusion: whatever the local client's own record says, it has
      no effect on its own lock view. */
  lemma OwnRecordIgnored(s: seq<Entry>, t: seq<Entry>, localId: ClientId, st: AwarenessState, field: FieldName)
    requires UpdatedAt(s, t, localId, st)
    ensures LastClaim(t, localId, field) == LastClaim(s, localId, field)
    ensures LockHolder(t, localId, field) == LockHolder(s, localId, field)
  {
  }

  /** Focusing a field with one's own record alone never locks it for
      oneself: if no other client claims the field, the holder is `None`. */
  lemma SelfFocusNeverLocks(s: seq<Entry>, localId: ClientId, field: FieldName)
    requires forall j :: 0 <= j < |s| && s[j].state.focusedField == Some(field) ==> s[j].id == localId
    ensures LockHolder(s, localId, field) == None
  {
  }

  /** Self-healing: once every record of the client that claimed the field
      is deleted, the recomputed lock view is unlocked. */
  lemma RemovingClaimantUnlocks(s: seq<Entry>, localId: ClientId, field: FieldName, gone: ClientId)
    requires forall j :: 0 <= j < |s| && Claims(s[j], localId, field) ==> s[j].id == gone
    ensures LastClaim(Without(s, gone), localId, field) == None
    ensures LockHolder(Without(s, gone), localId, field) == None
  {
  }

  /** A claim by another client is always seen: the field is claimed, and
      the deciding claimant is that one or a later one. */
  lemma ClaimIsSeen(s: seq<Entry>, localId: ClientId, field: FieldName, k: nat)
    requires k < |s| && Claims(s[k], localId, field)
    ensures LastClaim(s, localId, field).Some?
    ensures LastClaim(s, localId, field).value >= k
  {
  }

  /** The code has no order-independent tie-break: the same two claimants,
      met in the opposite order, give a different holder. */
  lemma HolderDependsOnOrder()
    ensures
      var alex := Entry(2, AwarenessState(Some(Roster()[0]), Some("project_title")));
      var dan := Entry(5, AwarenessState(Some(Roster()[1]), Some("project_title")));
      LockHolder([alex, dan], 1, "project_title") == Some(Roster()[1]) &&
      LockHolder([dan, alex], 1, "project_title") == Some(Roster()[0])
  {
  }

  /** The awareness handler: walk the registry in iteration order, skip the
      local client, and remember the user of every record focused on the
      field, so that the last one remains. `isLocked` is whether one was found. */
  method ComputeLock(states: seq<Entry>, localId: ClientId, field: FieldName)
    returns (lockedBy: Option<User>, isLocked: bool)
    ensures lockedBy == LockHolder(states, localId, field)
    ensures isLocked <==> lockedBy.Some?
  {
    var foundLock: Option<User> := None;
    var i := 0;
    while i < |states|
      invariant 0 <= i <= |states|
      invariant foundLock == LockHolder(states[..i], localId, field)
    {
      var e := states[i];
      if e.id != localId && e.state.focusedField == Some(field) {
        foundLock := e.state.user;
      }
      assert states[..i + 1][..i] == states[..i];
      i := i + 1;
    }
    assert states[..i] == states;
    lockedBy := foundLock;
    isLocked := foundLock.Some?;
  }

  /** The state one field editor keeps between events. */
  class Editor {
    /** The field this editor is bound to. */
    const fieldName: FieldName
    /** The text shown in the input. */
    var value: string
    /** Whether the input is disabled because another client holds the field. */
    var isLocked: bool
    /** The stored lock holder; it is displayed only while `isLocked`. */
    var lockedBy: Option<User>
    /** Whether the input has focus. */
    var isFocused: bool

    /** A new editor shows the field's current text, unlocked and unfocused. */
    constructor (field: FieldName, store: TextStore)
      ensures fieldName == field && value == store.Read(field)
      ensures !isLocked && lockedBy == None && !isFocused
    {
      fieldName := field;
      value := store.Read(field);
      isLocked := false;
      lockedBy := None;
      isFocused := false;
    }

    /** Any registry change: the lock view is recomputed from scratch. */
    method HandleAwareness(reg: AwarenessRegistry)
      modifies this`lockedBy, this`isLocked
      ensures lockedBy == LockHolder(reg.entries, reg.localId, fieldName)
      ensures isLocked <==> lockedBy.Some?
    {
      lockedBy, isLocked := ComputeLock(reg.entries, reg.localId, fieldName);
    }

    /** A transaction changed this editor's own field (the observer is
        registered on that field only): the shown text is refreshed only
        when the transaction was not made by this client. */
    method HandleTextChange(store: TextStore, reg: AwarenessRegistry, ev: TextEvent)
      requires ev.field == fieldName
      modifies this`value
      ensures ShouldRefresh(ev.origin, reg.localId) ==> value == store.Read(fieldName)
      ensures !ShouldRefresh(ev.origin, reg.localId) ==> value == old(value)
    {
      if ev.origin != ClientOrigin(reg.localId) {
        value := store.Read(fieldName);
      }
    }

    /** A keystroke: the input shows the new value at once, and one
        transaction tagged with the local client ID replaces the field's text. */
    method HandleChange(store: TextStore, reg: AwarenessRegistry, newValue: string) returns (ev: TextEvent)
      modifies this`value, store
      ensures value == newValue
      ensures store.texts == old(store.texts)[fieldName := newValue]
      ensures ev == TextEvent(fieldName, ClientOrigin(reg.localId))
      ensures !ShouldRefresh(ev.origin, reg.localId)
    {
      value := newValue;
      ev := store.Replace(fieldName, newValue, ClientOrigin(reg.localId));
    }

    /** The input gains focus: the local record now names this field,
        whatever it named before. */
    method OnFocus(reg: AwarenessRegistry)
      requires reg.Valid()
      modifies this`isFocused, reg
      ensures reg.Valid() && isFocused
      ensures reg.LocalState() == AwarenessState(old(reg.LocalState()).user, Some(fieldName))
      ensures UpdatedAt(old(reg.entries), reg.entries, reg.localId, reg.LocalState())
    {
      isFocused := true;
      reg.SetLocalFocused(Some(fieldName));
    }

    /** The input loses focus: the local record is cleared to "no field"
        only if it still names this field; otherwise it is left as it is. */
    method OnBlur(reg: AwarenessRegistry)
      requires reg.Valid()
      modifies this`isFocused, reg
      ensures reg.Valid() && !isFocused
      ensures old(reg.LocalState()).focusedField == Some(fieldName) ==>
        reg.LocalState() == AwarenessState(old(reg.LocalState()).user, None) &&
        UpdatedAt(old(reg.entries), reg.entries, reg.localId, reg.LocalState())
      ensures old(reg.LocalState()).focusedField != Some(fieldName) ==> reg.entries == old(reg.entries)
    {
      isFocused := false;
      if reg.LocalState().focusedField == Some(fieldName) {
        reg.SetLocalFocused(None);
      }
    }

    /** The force-unlock button: only the local `isLocked` flag is cleared.
        The stored holder `lockedBy` is kept, but it is displayed only while
        `isLocked`; the registry is not touched. */
    method HandleForceUnlock()
      modifies this`isLocked
      ensures !isLocked
    {
      isLocked := false;
    }
  }
}
