/** The "Assign Roles" dialog (app/components/memberhips/assign-role-user.tsx):
    the roles it offers, the selection the user toggles, and what saving hands
    to its caller. */
module AssignRoleDialog {
  import opened SeqUtil
  import opened RoleUtils

  /** `prev.includes(roleId) ? prev.filter((id) => id !== roleId) : [...prev, roleId]`
      (assign-role-user.tsx:72-76): a listed id leaves, any other id is appended. */
  function Toggled(prev: seq<string>, roleId: string): (r: seq<string>)
    ensures roleId in r <==> roleId !in prev
    ensures forall x :: x != roleId ==> (x in r <==> x in prev)
    ensures roleId !in prev ==> r == prev + [roleId]
    ensures IsSubseq(r, prev) || r == prev + [roleId]
  {
    RemoveSubseqNoDup(prev, roleId);
    if roleId in prev then Remove(prev, roleId) else prev + [roleId]
  }

  /** Toggling keeps a duplicate-free selection duplicate-free. */
  lemma ToggledNoDup(prev: seq<string>, roleId: string)
    requires NoDup(prev)
    ensures NoDup(Toggled(prev, roleId))
  {
    if roleId in prev {
      RemoveSubseqNoDup(prev, roleId);
    } else {
      NoDupSnoc(prev, roleId);
    }
  }

  /** Toggling an unselected id twice restores the selection exactly. */
  lemma ToggleAbsentTwice(prev: seq<string>, roleId: string)
    requires roleId !in prev
    ensures Toggled(Toggled(prev, roleId), roleId) == prev
  {
    var p := Other(roleId);
    KeepAppend(prev, [roleId], p);
    KeepAll(prev, p);
    assert Keep([roleId], p) == [];
  }

  /** Toggling a selected id twice keeps the same ids but moves that id to the end. */
  lemma TogglePresentTwice(prev: seq<string>, roleId: string)
    requires NoDup(prev) && roleId in prev
    ensures Toggled(Toggled(prev, roleId), roleId) == Remove(prev, roleId) + [roleId]
    ensures multiset(Toggled(Toggled(prev, roleId), roleId)) == multiset(prev)
  {
    var r := Remove(prev, roleId);
    assert Toggled(prev, roleId) == r;
    assert Toggled(r, roleId) == r + [roleId];
    var i :| 0 <= i < |prev| && prev[i] == roleId;
    RemoveSnocMultiset(prev, i);
  }

  /** The test `!existingRoleIds.includes(role.id)`. */
  function NotAssigned(existing: seq<string>): Role -> bool {
    (role: Role) => role.id !in existing
  }

  /** The test `selectedRoleIds.includes(role.id)`. */
  function IsSelected(selected: seq<string>): Role -> bool {
    (role: Role) => role.id in selected
  }

  /** `availableRoles` (assign-role-user.tsx:62-65): the roles not yet assigned,
      in the order the roles arrive. */
  function AvailableRoles(roles: seq<Role>, existing: seq<string>): (r: seq<Role>)
    ensures forall role :: role in r <==> role in roles && role.id !in existing
    ensures forall role :: multiset(r)[role] == if role.id !in existing then multiset(roles)[role] else 0
    ensures IsSubseq(r, roles)
  {
    KeepIsSubseq(roles, NotAssigned(existing));
    KeepMultiset(roles, NotAssigned(existing));
    Keep(roles, NotAssigned(existing))
  }

  /** `selectedRoles` (assign-role-user.tsx:67-70): the roles whose id is selected,
      in the order the roles arrive. */
  function SelectedRoles(roles: seq<Role>, selected: seq<string>): (r: seq<Role>)
    ensures forall role :: role in r <==> role in roles && role.id in selected
    ensures forall role :: multiset(r)[role] == if role.id in selected then multiset(roles)[role] else 0
    ensures IsSubseq(r, roles)
  {
    KeepIsSubseq(roles, IsSelected(selected));
    KeepMultiset(roles, IsSelected(selected));
    Keep(roles, IsSelected(selected))
  }

  /** The selected roles follow the order of the roles, not the order of selection. */
  lemma SelectedRolesInRolesOrder(a: Role, b: Role)
    requires a.id != b.id
    ensures SelectedRoles([a, b], [b.id, a.id]) == [a, b]
  {
    assert [a, b][1..] == [b];
  }

  /** What `handleSave` hands to `onConfirm`. */
  datatype Confirmation = Confirmation(userId: string, roleIds: seq<string>, roles: seq<Role>)

  /** The dialog's state. */
  class AssignRoleForm {
    var isOpen: bool
    var currentUserId: string
    var existingRoleIds: seq<string>
    var selectedRoleIds: seq<string>
    var searchValue: string
    var isSaving: bool

    /** The selection never lists an id twice. */
    predicate Valid()
      reads this
    {
      NoDup(selectedRoleIds)
    }

    /** Every field at its initial value (assign-role-user.tsx:48-53). */
    predicate Initial()
      reads this
    {
      !isOpen && currentUserId == [] && existingRoleIds == [] && selectedRoleIds == []
      && searchValue == [] && !isSaving
    }

    constructor ()
      ensures Valid() && Initial()
    {
      isOpen, currentUserId, existingRoleIds, selectedRoleIds, searchValue, isSaving :=
        false, [], [], [], [], false;
    }

    /** `toggleRole` (assign-role-user.tsx:72-76). */
    method Toggle(roleId: string)
      requires Valid()
      modifies this
      ensures Valid()
      ensures selectedRoleIds == Toggled(old(selectedRoleIds), roleId)
      ensures isOpen == old(isOpen) && currentUserId == old(currentUserId)
      ensures existingRoleIds == old(existingRoleIds) && searchValue == old(searchValue)
      ensures isSaving == old(isSaving)
    {
      ToggledNoDup(selectedRoleIds, roleId);
      selectedRoleIds := Toggled(selectedRoleIds, roleId);
    }

    /** `closeDialog` (assign-role-user.tsx:78-85): every field back to its initial value. */
    method Close()
      modifies this
      ensures Valid() && Initial()
    {
      isOpen, currentUserId, existingRoleIds, selectedRoleIds, searchValue, isSaving :=
        false, [], [], [], [], false;
    }

    /** `onOpenChange` (assign-role-user.tsx:117): closing through the dialog
      closes; an open request changes nothing. */
    method OpenChange(nextOpen: bool)
      requires Valid()
      modifies this
      ensures Valid()
      ensures !nextOpen ==> Initial()
      ensures nextOpen ==> unchanged(this)
    {
      if !nextOpen {
        Close();
      }
    }

    /** `handleOpen` (assign-role-user.tsx:100-105): the user and the already
      assigned ids (none when missing) are recorded, the selection cleared, the
      dialog opened. The search text and the saving flag are left as they are. */
    method Open(userId: string, preselected: Option<seq<string>>)
      modifies this
      ensures Valid()
      ensures isOpen && currentUserId == userId && existingRoleIds == preselected.GetOr([])
      ensures selectedRoleIds == []
      ensures searchValue == old(searchValue) && isSaving == old(isSaving)
    {
      currentUserId := userId;
      existingRoleIds := preselected.GetOr([]);
      selectedRoleIds := [];
      isOpen := true;
    }

    /** The Save button is enabled with a selection while not saving
      (assign-role-user.tsx:180). */
    predicate SaveEnabled()
      reads this
    {
      selectedRoleIds != [] && !isSaving
    }

    /** `handleSave` (assign-role-user.tsx:87-98), with `roles` the loaded roles and
      `confirmSettles` whether the awaited `onConfirm` resolves. Without a user or
      a selection nothing happens. Without `onConfirm` the dialog closes. Otherwise
      `onConfirm` is called once with the user, the selection and the selected
      roles; the dialog then closes, or stays saving when the call rejects. */
    method Save(roles: seq<Role>, hasOnConfirm: bool, confirmSettles: bool) returns (call: Option<Confirmation>)
      requires Valid()
      modifies this
      ensures Valid()
      ensures old(currentUserId) == [] || old(selectedRoleIds) == [] ==> call == None && unchanged(this)
      ensures old(currentUserId) != [] && old(selectedRoleIds) != [] && !hasOnConfirm ==> call == None && Initial()
      ensures old(currentUserId) != [] && old(selectedRoleIds) != [] && hasOnConfirm ==>
                call == Some(Confirmation(old(currentUserId), old(selectedRoleIds),
                                          SelectedRoles(roles, old(selectedRoleIds))))
      ensures old(currentUserId) != [] && old(selectedRoleIds) != [] && hasOnConfirm && confirmSettles ==> Initial()
      ensures old(currentUserId) != [] && old(selectedRoleIds) != [] && hasOnConfirm && !confirmSettles ==>
                isSaving && isOpen == old(isOpen) && currentUserId == old(currentUserId)
                && selectedRoleIds == old(selectedRoleIds) && existingRoleIds == old(existingRoleIds)
                && searchValue == old(searchValue)
    {
      if currentUserId == [] || selectedRoleIds == [] {
        return None;
      }
      if !hasOnConfirm {
        Close();
        return None;
      }
      isSaving := true;
      call := Some(Confirmation(currentUserId, selectedRoleIds, SelectedRoles(roles, selectedRoleIds)));
      if confirmSettles {
        Close();
      }
    }
  }

  /** The only roles offered are the unassigned ones, so a selection made by
      toggling offered roles never holds an already assigned id. */
  lemma ToggleOfferedKeepsUnassigned(roles: seq<Role>, existing: seq<string>, selected: seq<string>, role: Role)
    requires forall x :: x in selected ==> x !in existing
    requires role in AvailableRoles(roles, existing)
    ensures forall x :: x in Toggled(selected, role.id) ==> x !in existing
  {
  }
}
