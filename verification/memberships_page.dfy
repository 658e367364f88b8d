/** The memberships tab of a user (app/routes/main/users/detail/memberships/index.tsx):
    the roles held on the loaded page of memberships, the dialog opened with them,
    and the create requests issued for the newly chosen roles. Only that page
    (index.tsx:36-38, 25 rows) is known here: a role held on another page counts
    as not held. */
module MembershipsPage {
  import opened SeqUtil
  import opened RoleUtils
  import opened AssignRoleDialog

  /** A membership row; only its role matters here. */
  datatype Membership = Membership(id: string, roleId: string)

  /** The role ids of the memberships, in row order, repeats kept. */
  function RoleIdSeq(items: seq<Membership>): (r: seq<string>)
    ensures |r| == |items|
    ensures forall i :: 0 <= i < |items| ==> r[i] == items[i].roleId
  {
    seq(|items|, i requires 0 <= i < |items| => items[i].roleId)
  }

  /** `existingRoleIds` (index.tsx:157-160): the set of role ids of the loaded
      memberships, none while nothing is loaded. */
  function ExistingRoleIds(data: Option<seq<Membership>>): (s: set<string>)
    ensures forall x :: x in s <==> x in RoleIdSeq(data.GetOr([]))
  {
    set x | x in RoleIdSeq(data.GetOr([]))
  }

  /** `Array.from(existingRoleIds)` (index.tsx:205): the ids in the order the set
      first met them. */
  function ExistingRoleIdList(data: Option<seq<Membership>>): (r: seq<string>)
    ensures NoDup(r)
    ensures forall x :: x in r <==> x in ExistingRoleIds(data)
  {
    Distinct(RoleIdSeq(data.GetOr([])))
  }

  /** The test `!existingRoleIds.has(roleId)`. */
  function NotExisting(existing: set<string>): string -> bool {
    x => x !in existing
  }

  /** `newRoleIds` (index.tsx:224): the confirmed ids the user does not hold yet,
      in confirmation order. */
  function NewRoleIds(roleIds: seq<string>, existing: set<string>): (r: seq<string>)
    ensures forall x :: x in r <==> x in roleIds && x !in existing
    ensures forall x :: x in r ==> x !in existing
    ensures forall x :: multiset(r)[x] == if x !in existing then multiset(roleIds)[x] else 0
    ensures IsSubseq(r, roleIds)
  {
    KeepIsSubseq(roleIds, NotExisting(existing));
    KeepMultiset(roleIds, NotExisting(existing));
    Keep(roleIds, NotExisting(existing))
  }

  /** A duplicate-free confirmation gives duplicate-free new ids. */
  lemma NewRoleIdsNoDup(roleIds: seq<string>, existing: set<string>)
    requires NoDup(roleIds)
    ensures NoDup(NewRoleIds(roleIds, existing))
  {
    KeepNoDup(roleIds, NotExisting(existing));
  }

  /** The body of `createRoleMembership` for one role. */
  datatype CreateMembership = CreateMembership(roleId: string, userId: string, domain: string)

  /** What `onConfirm` does: the creates it issues, the messages it shows and
      whether it refetches. */
  datatype ConfirmEffects = ConfirmEffects(creates: seq<CreateMembership>, infoShown: bool, successShown: bool, refetched: bool)

  /** `onConfirm` (index.tsx:223-239), with `allResolve` whether every create
      resolves. Nothing new: only the info message. Otherwise one create per new
      id, for the user and domain '*'; the success message and the refetch follow
      only when every create resolved. */
  function OnConfirm(userId: string, roleIds: seq<string>, existing: set<string>, allResolve: bool): (e: ConfirmEffects)
    ensures NewRoleIds(roleIds, existing) == [] ==> e == ConfirmEffects([], true, false, false)
    ensures NewRoleIds(roleIds, existing) != [] ==>
              |e.creates| == |NewRoleIds(roleIds, existing)| && !e.infoShown
              && (forall i :: 0 <= i < |e.creates| ==>
                    e.creates[i] == CreateMembership(NewRoleIds(roleIds, existing)[i], userId, "*"))
              && e.successShown == allResolve && e.refetched == allResolve
  {
    var added := NewRoleIds(roleIds, existing);
    if added == [] then ConfirmEffects([], true, false, false)
    else
      var creates := seq(|added|, i requires 0 <= i < |added| => CreateMembership(added[i], userId, "*"));
      ConfirmEffects(creates, false, allResolve, allResolve)
  }

  /** No create is ever issued for a role held on the loaded page. */
  lemma NoCreateForHeldRole(userId: string, roleIds: seq<string>, data: Option<seq<Membership>>, allResolve: bool, i: nat)
    requires i < |OnConfirm(userId, roleIds, ExistingRoleIds(data), allResolve).creates|
    ensures OnConfirm(userId, roleIds, ExistingRoleIds(data), allResolve).creates[i].roleId !in RoleIdSeq(data.GetOr([]))
    ensures OnConfirm(userId, roleIds, ExistingRoleIds(data), allResolve).creates[i].roleId in roleIds
  {
    var added := NewRoleIds(roleIds, ExistingRoleIds(data));
    assert added[i] in added;
  }

  /** The dialog is opened with the ids held on the loaded page
      (index.tsx:203-206), so it never offers one of those roles. */
  lemma DialogOffersOnlyUnheldRoles(roles: seq<Role>, data: Option<seq<Membership>>, role: Role)
    requires role in AvailableRoles(roles, ExistingRoleIdList(data))
    ensures role.id !in ExistingRoleIds(data)
  {
  }

  /** When the confirmed ids all come from offered roles, the `existingRoleIds`
      filter removes nothing. */
  lemma OfferedSelectionIsAllNew(roles: seq<Role>, data: Option<seq<Membership>>, roleIds: seq<string>)
    requires forall x :: x in roleIds ==> exists role :: role in AvailableRoles(roles, ExistingRoleIdList(data)) && role.id == x
    ensures NewRoleIds(roleIds, ExistingRoleIds(data)) == roleIds
  {
    forall x | x in roleIds ensures NotExisting(ExistingRoleIds(data))(x) {
      var role :| role in AvailableRoles(roles, ExistingRoleIdList(data)) && role.id == x;
      DialogOffersOnlyUnheldRoles(roles, data, role);
    }
    KeepAll(roleIds, NotExisting(ExistingRoleIds(data)));
  }
}
