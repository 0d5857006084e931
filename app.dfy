/** The application shell (app/components/App.tsx): the list of online
    users it rebuilds on every registry change, the account selection that
    writes the local presence record, and the choice between the selection
    screen and the two field editors. */
module App {
  import opened Types
  import opened Awareness

  /** The two fields the application edits. */
  const ProjectTitle: FieldName := "project_title"
  const ProjectDescription: FieldName := "project_description"

  /** The users of every record that has one, in iteration order. The local
      client is not skipped, and the same user chosen by two clients
      appears twice. */
  function ActiveUsers(s: seq<Entry>): (r: seq<User>)
    ensures |r| <= |s|
    ensures forall u :: u in r <==> exists i :: 0 <= i < |s| && s[i].state.user == Some(u)
  {
    if s == [] then []
    else
      var rest := ActiveUsers(s[1..]);
      assert forall i :: 0 <= i < |s[1..]| ==> s[1..][i] == s[i + 1];
      match s[0].state.user
      case Some(u) => [u] + rest
      case None => rest
  }

  /** The list respects iteration order: the users of a concatenation are
      the users of the first part followed by those of the second. */
  lemma {:induction false} ActiveUsersAppend(s: seq<Entry>, t: seq<Entry>)
    ensures ActiveUsers(s + t) == ActiveUsers(s) + ActiveUsers(t)
  {
    if s != [] {
      assert (s + t)[1..] == s[1..] + t;
      ActiveUsersAppend(s[1..], t);
    } else {
      assert s + t == t;
    }
  }

  /** Records with no chosen account contribute nothing: the list has one
      user per record that has one. */
  lemma {:induction false} ActiveUsersCount(s: seq<Entry>, n: nat)
    requires n == |set i | 0 <= i < |s| && s[i].state.user.Some?|
    ensures |ActiveUsers(s)| == n
  {
    if s != [] {
      var m := |s| - 1;
      var front := s[..m];
      var before := set i | 0 <= i < |front| && front[i].state.user.Some?;
      var whole := set i | 0 <= i < |s| && s[i].state.user.Some?;
      assert whole == before + (if s[m].state.user.Some? then {m} else {});
      assert m !in before;
      assert s == front + [s[m]];
      ActiveUsersAppend(front, [s[m]]);
      ActiveUsersCount(front, |before|);
    }
  }

  /** Duplicates are kept: two records with the same user put that user in
      the list twice. */
  lemma DuplicatesKept(s: seq<Entry>, i: nat, j: nat, u: User)
    requires i < j < |s|
    requires s[i].state.user == Some(u) && s[j].state.user == Some(u)
    ensures multiset(ActiveUsers(s))[u] >= 2
  {
    assert s == s[..j] + s[j..];
    ActiveUsersAppend(s[..j], s[j..]);
    assert s[..j][i].state.user == Some(u);
    assert u in ActiveUsers(s[..j]);
    assert ActiveUsers(s[j..])[0] == u;
  }

  /** The local client's own user is listed, unlike in the lock view,
      which skips the local record. */
  lemma LocalUserListed(reg: AwarenessRegistry, u: User)
    requires reg.Valid() && reg.LocalState().user == Some(u)
    ensures u in ActiveUsers(reg.entries)
  {
  }

  /** The update handler: a fresh list, filled by walking the registry. */
  method UpdateUsers(states: seq<Entry>) returns (users: seq<User>)
    ensures users == ActiveUsers(states)
  {
    users := [];
    var i := 0;
    while i < |states|
      invariant 0 <= i <= |states|
      invariant users == ActiveUsers(states[..i])
    {
      var state := states[i].state;
      assert states[..i + 1] == states[..i] + [states[i]];
      ActiveUsersAppend(states[..i], [states[i]]);
      if state.user.Some? {
        users := users + [state.user.value];
      }
      i := i + 1;
    }
    assert states[..i] == states;
  }

  /** What the application shows. */
  datatype Screen =
    | SelectionScreen(accounts: seq<User>)
    | EditorsScreen(current: User, online: seq<User>, fields: seq<FieldName>)

  /** The selection screen, offering the roster, until an account is
      chosen; then the two field editors and the online list. */
  function Render(selectedUser: Option<User>, activeUsers: seq<User>): (r: Screen)
    ensures r.EditorsScreen? <==> selectedUser.Some?
    ensures r.SelectionScreen? ==> r.accounts == Roster()
    ensures r.EditorsScreen? ==>
      r.current == selectedUser.value && r.online == activeUsers &&
      r.fields == [ProjectTitle, ProjectDescription] && r.fields[0] != r.fields[1]
  {
    match selectedUser
    case None => SelectionScreen(Roster())
    case Some(u) => EditorsScreen(u, activeUsers, [ProjectTitle, ProjectDescription])
  }

  /** The shell's own state. */
  class AppState {
    /** The account chosen on this connection, if any. */
    var selectedUser: Option<User>
    /** The online list last computed. */
    var activeUsers: seq<User>

    /** Start: no account chosen, nobody listed. */
    constructor ()
      ensures selectedUser == None && activeUsers == []
    {
      selectedUser := None;
      activeUsers := [];
    }

    /** Any registry change: the online list is rebuilt from scratch. */
    method HandleAwareness(reg: AwarenessRegistry)
      modifies this`activeUsers
      ensures activeUsers == ActiveUsers(reg.entries)
    {
      activeUsers := UpdateUsers(reg.entries);
    }

    /** An account is chosen: it becomes the selected user and the `user`
        part of the local record; `focusedField` and every other client's
        record are unchanged. */
    method HandleUserSelect(u: User, reg: AwarenessRegistry)
      requires reg.Valid()
      modifies this`selectedUser, reg
      ensures reg.Valid() && selectedUser == Some(u)
      ensures reg.LocalState() == AwarenessState(Some(u), old(reg.LocalState()).focusedField)
      ensures UpdatedAt(old(reg.entries), reg.entries, reg.localId, reg.LocalState())
    {
      selectedUser := Some(u);
      reg.SetLocalUser(u);
    }

    /** The screen for the current state. */
    function View(): (r: Screen)
      reads this
      ensures r.EditorsScreen? <==> selectedUser.Some?
    {
      Render(selectedUser, activeUsers)
    }
  }
}
