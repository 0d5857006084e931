# Soft field locks of the collaborative editor, in Dafny

This project models the core of a small collaborative form editor. Several
connections edit two named text fields of one shared document. Each
connection publishes a presence record, `{user, focusedField}`, in an
awareness registry. Every field editor derives from that registry a soft
lock: the field is shown as locked, and its input disabled, while another
client is focused on it.

The model covers:

- the record shapes and the fixed account roster (module `Types`);
- the awareness registry as the editor uses it (module `Awareness`). It is an
  insertion-ordered map from client ID to record. An update keeps a client's
  place, a new client is appended, a departed client is deleted. The local
  record is always present. Only its own record is written by a connection;
- the text fields of the document (module `YText`). A keystroke is one
  transaction, tagged with the local client ID. It deletes the whole text and
  inserts the new value;
- the field editor (module `FieldEditor`). It covers the lock derivation,
  the origin filter on text changes, the focus and blur updates to the local
  record, the whole-text replace, and the force-unlock button;
- the application shell (module `App`). It covers the online-user list, the
  account selection, and the choice between the selection screen and the two
  editors (`project_title`, `project_description`);
- three client methods in `Scenarios`. They drive these operations through
  focus, blur, force-unlock, disconnect, local and remote edits, and account
  selection, using the contracts alone.

Behaviour the model states as the code has it:

- **Last match wins.** The lock holder is the user of the last record, in
  registry iteration order, that belongs to another client and is focused on
  the field. There is no order-independent tie-break. Two observers that met
  the same two claimants in opposite orders report different holders
  (`HolderDependsOnOrder`). No order-independent rule (such as the smallest
  client ID) is applied.
- **A record without a user.** The holder is the `user` of the last
  claimant, whatever it is. So a claimant that has not chosen an account yet
  reports no holder, even if an earlier claimant has one. `isLocked` is
  whether a holder was found (`LockedIff`).
- **Own record ignored.** The local record never locks the field for its own
  connection. This is why force-unlock only lasts until the next
  recomputation. The button clears the local flag, and the input is focused
  again. But the focus changes only the local record, which the lock
  derivation ignores (`OwnRecordIgnored`). So while the holder's record still
  names the field, the next recomputation locks the field again
  (`Scenarios.LockFollowsPresence`).
- **Online list.** The list of online users does include the local
  connection's own user. It also keeps duplicates.

The TypeScript type declares `user` as always present. The code, however,
tests `if (state.user)`, and a fresh presence record is empty. The model
therefore makes `user` optional and follows the code.

## Model

| member | source | states |
|---|---|---|
| `Types.Roster` | app/types/types.ts:6-9 | The roster has exactly two accounts, Alex and Dan, with distinct names and distinct colours. |
| `Awareness.Put` | app/components/FieldEditor.tsx:72 | Writing a record keeps client IDs distinct. A present client is replaced in place with order and other entries unchanged. A new client is appended at the end. |
| `Awareness.Without` | app/components/FieldEditor.tsx:41-43 | Deleting a client keeps exactly the other clients' entries and never grows the registry. |
| `Awareness.WithoutAppend` | app/components/FieldEditor.tsx:41-43 | Deleting a client keeps the remaining entries in their iteration order: deleting from a concatenation deletes from each part, in sequence. |
| `Awareness.WithoutDistinct` | app/components/FieldEditor.tsx:41-43 | Deleting a client keeps the remaining client IDs distinct. |
| `Awareness.AwarenessRegistry.constructor` | app/components/FieldEditor.tsx:43 | A new connection's registry holds only its own record, still empty. The empty initial record is what the awareness library's constructor sets up; that library is not part of this model. |
| `Awareness.AwarenessRegistry.SetLocalState` | app/components/FieldEditor.tsx:72 | Replacing the local record changes only the local entry, in place, and keeps the registry valid. |
| `Awareness.AwarenessRegistry.SetLocalFocused` | app/components/FieldEditor.tsx:72 | Setting `focusedField` changes only that part of the local record. `user` and every other client's entry are unchanged. |
| `Awareness.AwarenessRegistry.SetLocalUser` | app/components/App.tsx:44 | Setting `user` changes only that part of the local record. `focusedField` and every other client's entry are unchanged. |
| `Awareness.AwarenessRegistry.ApplyRemote` | app/components/FieldEditor.tsx:41-43 | Another client's update replaces its record in place, or appends it if new. The local record is unchanged. |
| `Awareness.AwarenessRegistry.RemoveClient` | app/components/FieldEditor.tsx:41-43 | A departed client's record is deleted, the others keep their order, and the local record is unchanged. |
| `FieldEditor.LastClaim` | app/components/FieldEditor.tsx:45-48 | Finds the last record of another client focused on the field, with no such record after it. It returns none exactly when no record claims the field. |
| `FieldEditor.LockHolder` | app/components/FieldEditor.tsx:44-50 | A reported holder is the user of some other client focused on the field. With no such client the holder is null. |
| `FieldEditor.LastMatchWins` | app/components/FieldEditor.tsx:45-48 | The claimant after which no record claims the field decides the holder, even if it has no user. |
| `FieldEditor.LockedIff` | app/components/FieldEditor.tsx:50-51 | The field is locked iff some other client is focused on it with a user and no later record claims it. |
| `FieldEditor.OwnRecordIgnored` | app/components/FieldEditor.tsx:46 | Any change to the local client's own record leaves its lock view unchanged. |
| `FieldEditor.SelfFocusNeverLocks` | app/components/FieldEditor.tsx:46 | If only the local record is focused on the field, the field is not locked. |
| `FieldEditor.RemovingClaimantUnlocks` | app/components/FieldEditor.tsx:41-52 | Deleting the only claiming client makes the recomputed lock view unlocked. |
| `FieldEditor.ClaimIsSeen` | app/components/FieldEditor.tsx:45-48 | Any claim by another client makes the field claimed, and the deciding claimant is that one or a later one. |
| `FieldEditor.HolderDependsOnOrder` | app/components/FieldEditor.tsx:45-48 | The same two claimants in opposite iteration orders give different holders: there is no order-independent tie-break. |
| `FieldEditor.ComputeLock` | app/components/FieldEditor.tsx:41-52 | The handler's loop yields the lock view, and `isLocked` is true exactly when a holder was found. |
| `FieldEditor.Editor.constructor` | app/components/FieldEditor.tsx:16-25 | A new editor shows the field's current text, unlocked and unfocused. |
| `FieldEditor.Editor.HandleAwareness` | app/components/FieldEditor.tsx:41-52 | Every registry change recomputes `lockedBy` from scratch, and `isLocked` is whether it is set. |
| `FieldEditor.Editor.HandleTextChange` | app/components/FieldEditor.tsx:34-39 | For a change to this editor's own field, the shown text is refreshed from the document only when the change was not made by this client. Otherwise it is unchanged. |
| `FieldEditor.Editor.HandleChange` | app/components/FieldEditor.tsx:61-68 | After a keystroke the input and the field's text both equal the new value. The one change event carries the local client ID as origin and so is not echoed back. |
| `FieldEditor.Editor.OnFocus` | app/components/FieldEditor.tsx:70-73 | Focus sets the local `focusedField` to this field, whatever it was, and changes nothing else in the registry. |
| `FieldEditor.Editor.OnBlur` | app/components/FieldEditor.tsx:75-81 | Blur clears the local `focusedField` only if it names this field. Otherwise the registry is left exactly as it was. |
| `FieldEditor.Editor.HandleForceUnlock` | app/components/FieldEditor.tsx:83-88 | Force-unlock clears only the local `isLocked` flag and cannot touch the registry. The stored holder `lockedBy` is kept, but it is displayed only while `isLocked` is set. |
| `YText.Delete` | app/components/FieldEditor.tsx:65 | Deleting a range keeps the text before it and shifts the text after it down by its length. |
| `YText.Insert` | app/components/FieldEditor.tsx:66 | Inserting keeps the text before the position, places the new text there, and shifts the rest up. |
| `YText.ClearThenInsert` | app/components/FieldEditor.tsx:64-67 | Deleting the whole text and inserting at position 0 leaves exactly the inserted text. |
| `YText.TextStore.Read` | app/components/FieldEditor.tsx:21-25 | A field that was never written reads as empty text. |
| `YText.TextStore.constructor` | app/components/App.tsx:16 | A new document has no written fields. |
| `YText.TextStore.Replace` | app/components/FieldEditor.tsx:64-67 | One transaction makes the field's text the new value and leaves every other field unchanged. It produces one event carrying the given origin. |
| `App.ActiveUsers` | app/components/App.tsx:28-35 | A user is in the online list iff some record, the local one included, has that user. The list is no longer than the registry. |
| `App.ActiveUsersAppend` | app/components/App.tsx:31-33 | The list follows iteration order: the users of a concatenation are those of the first part followed by those of the second. |
| `App.ActiveUsersCount` | app/components/App.tsx:32 | The list has exactly one user per record that has one; records without a user contribute nothing. |
| `App.DuplicatesKept` | app/components/App.tsx:30-34 | Two records with the same user put that user in the list at least twice. |
| `App.LocalUserListed` | app/components/App.tsx:31-33 | The local connection's own user is listed: unlike the lock view, the list does not skip the local record. |
| `App.UpdateUsers` | app/components/App.tsx:28-35 | The handler's loop builds exactly the online list from a fresh empty list. |
| `App.Render` | app/components/App.tsx:48-125 | The editors are shown iff an account is selected, and until then the roster is offered. The editors are exactly the two distinct fields `project_title` and `project_description`. |
| `App.AppState.constructor` | app/components/App.tsx:12-13 | The shell starts with no account selected and nobody listed. |
| `App.AppState.HandleAwareness` | app/components/App.tsx:28-37 | Every registry change rebuilds the online list from scratch. |
| `App.AppState.HandleUserSelect` | app/components/App.tsx:41-46 | Selecting an account records it as selected and sets only the `user` part of the local record. `focusedField` and the other clients' entries are unchanged. |
| `App.AppState.View` | app/components/App.tsx:48-76 | The shell shows the editors exactly when an account is selected. |

## Left out

- Merging concurrent edits from other replicas (the CRDT inside the Yjs library, which is not part of this model). A remote update is modelled only by its effect on this replica: a new field text and an event whose origin is the transport.
- The transports (WebSocket and hosted providers), broadcasting, disconnect detection and the hard-coded application ID and room name. These are network plumbing. `ApplyRemote` and `RemoveClient` stand for what they deliver.
- React rendering and the hooks lifecycle: JSX, `useState`, `useEffect`, `useMemo`, and subscribing and unsubscribing observers. These are UI wiring. Each handler is a method that a caller invokes when its event would fire.
- The `disabled={isLocked}` attribute that keeps a locked input from producing keystrokes. It is a DOM effect: `HandleChange`, like `handleChange`, has no guard of its own.
- Text-width measurement and the clamped caret position. These are layout concerns.
- The 10 ms `setTimeout` that refocuses the input after force-unlock. It is asynchronous DOM behaviour: `Scenarios.LockFollowsPresence` calls `OnFocus` explicitly in its place.
- Labels, styling, colours as rendered, and the `isFocused`-driven z-index. Only the `isFocused` flag is kept.
- The awareness library itself, whose constructor creates the empty local record. `Awareness.AwarenessRegistry.constructor` states that starting point without modelling the library.
- A local presence record cleared to null, which happens only when a connection is torn down. The model keeps the local record present throughout.
- The `provider?.awareness` guard in account selection. The model's registry always exists.
- Client IDs are unbounded naturals; the transport's 32-bit random IDs play no arithmetic role here.
- YText.Insert: requires the position to lie inside the text. The only caller inserts at position 0, so nothing is lost.
- YText.Delete: requires the range to lie inside the text. The only caller deletes exactly the whole text, and the library's behaviour for ranges past the end is not part of this model.
