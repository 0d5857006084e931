/** The record shapes shared by the editor and the application shell
    (app/types/types.ts), and the fixed roster of accounts. */
module Types {

  /** A value that may be absent: stands for TypeScript's `T | null` and
      for a property that was never set (`undefined`). */
  datatype Option<T> = None | Some(value: T)

  /** Identity of one live connection: the awareness client ID, a number
      the transport assigns. */
  type ClientId = nat

  /** Name of one shared text field of the document. */
  type FieldName = string

  /** An account: a display name and a colour, both plain strings. */
  datatype User = User(name: string, color: string)

  /** The presence record every connection publishes. It has exactly two
      parts. `user` is optional: a fresh record is empty until an account
      is chosen, and the application tests for its presence before use.
      `focusedField` is `None` when the client is focused on no field. */
  datatype AwarenessState = AwarenessState(user: Option<User>, focusedField: Option<FieldName>)

  /** The record a connection starts with, before any field is set. */
  const EmptyState: AwarenessState := AwarenessState(None, None)

  /** The fixed roster offered on the selection screen: two accounts with
      distinct names and distinct colours. */
  function Roster(): (r: seq<User>)
    ensures |r| == 2
    ensures r[0].name == "Alex" && r[1].name == "Dan"
    ensures r[0].name != r[1].name && r[0].color != r[1].color
  {
    [User("Alex", "#f472b6"), User("Dan", "#3b82f6")]
  }
}
