/** Client code that drives the model through the situations the editor is
    built for, using only the contracts of the operations it calls. */
module Scenarios {
  import opened Types
  import opened Awareness
  import opened YText
  import opened FieldEditor
  import opened App

  /** Dan's connection watches Alex focus and blur the description field,
      then watches Alex's connection disappear while focused. */
  method LockFollowsPresence()
  {
    var alex, dan := Roster()[0], Roster()[1];
    var store := new TextStore();
    var reg := new AwarenessRegistry(2);
    reg.SetLocalUser(dan);
    reg.ApplyRemote(1, AwarenessState(Some(alex), None));
    assert reg.entries == [Entry(2, AwarenessState(Some(dan), None)), Entry(1, AwarenessState(Some(alex), None))];
    var editor := new Editor(ProjectDescription, store);

    // Alex focuses the description: Dan's view locks on Alex.
    reg.ApplyRemote(1, AwarenessState(Some(alex), Some(ProjectDescription)));
    assert reg.entries[1] == Entry(1, AwarenessState(Some(alex), Some(ProjectDescription)));
    LastMatchWins(reg.entries, 2, ProjectDescription, 1);
    editor.HandleAwareness(reg);
    assert editor.isLocked && editor.lockedBy == Some(alex);

    // Dan presses force-unlock and the input is focused again: the flag
    // is cleared, but the next recomputation locks once more, since
    // Dan's own record is ignored and Alex's still names the field.
    editor.HandleForceUnlock();
    assert !editor.isLocked;
    ghost var before := reg.entries;
    editor.OnFocus(reg);
    OwnRecordIgnored(before, reg.entries, 2, reg.LocalState(), ProjectDescription);
    editor.HandleAwareness(reg);
    assert editor.lockedBy == Some(alex);

    // Alex blurs: unlocked.
    editor.OnBlur(reg);
    reg.ApplyRemote(1, AwarenessState(Some(alex), None));
    assert reg.entries[1] == Entry(1, AwarenessState(Some(alex), None));
    editor.HandleAwareness(reg);
    assert !editor.isLocked;

    // Alex focuses again and then vanishes: the removal alone unlocks.
    reg.ApplyRemote(1, AwarenessState(Some(alex), Some(ProjectDescription)));
    ghost var claimed := reg.entries;
    reg.RemoveClient(1);
    RemovingClaimantUnlocks(claimed, 2, ProjectDescription, 1);
    editor.HandleAwareness(reg);
    assert !editor.isLocked;
  }

  /** Local edits are not echoed back into the input; an update that
      arrives from another replica is shown. */
  method EditAndEcho()
  {
    var store := new TextStore();
    var reg := new AwarenessRegistry(7);
    var editor := new Editor(ProjectTitle, store);
    assert editor.value == [];

    var ev := editor.HandleChange(store, reg, "abc");
    editor.HandleTextChange(store, reg, ev);
    assert editor.value == "abc" && store.Read(ProjectTitle) == "abc";

    ev := store.Replace(ProjectTitle, "abcd", TransportOrigin);
    editor.HandleTextChange(store, reg, ev);
    assert editor.value == "abcd";
  }

  /** The online list shows every chosen account, the local one included,
      and the editors appear only once an account is chosen. */
  method SelectAndList()
  {
    var alex, dan := Roster()[0], Roster()[1];
    var reg := new AwarenessRegistry(1);
    var app := new AppState();
    assert app.View().SelectionScreen?;

    app.HandleUserSelect(alex, reg);
    reg.ApplyRemote(4, AwarenessState(Some(dan), None));
    reg.ApplyRemote(9, EmptyState);
    assert reg.entries == [Entry(1, AwarenessState(Some(alex), None)),
                           Entry(4, AwarenessState(Some(dan), None)), Entry(9, EmptyState)];
    app.HandleAwareness(reg);
    assert ActiveUsers(reg.entries[2..]) == [] by { assert reg.entries[2..][1..] == []; }
    assert ActiveUsers(reg.entries[1..]) == [dan] by { assert reg.entries[1..][1..] == reg.entries[2..]; }
    assert app.activeUsers == [alex, dan];
    assert app.View().EditorsScreen?;
  }
}
