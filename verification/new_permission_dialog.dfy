/** The "Add New Permissions" dialog
    (app/components/permissions/new-permission-dialog.tsx): a resource field, an
    action field whose entries collect into a duplicate-free action list, and a
    submit that issues one create request per listed action. */
module NewPermissionDialog {
  import opened SeqUtil
  import opened PermissionUtils

  /** A character of the class `[a-zA-Z0-9._]`. */
  predicate IsPermissionChar(c: char) {
    'a' <= c <= 'z' || 'A' <= c <= 'Z' || '0' <= c <= '9' || c == '.' || c == '_'
  }

  /** Every character is in `[a-zA-Z0-9._]`. */
  predicate IsSanitized(s: string) {
    forall i :: 0 <= i < |s| ==> IsPermissionChar(s[i])
  }

  /** `sanitizePermissionInput` (new-permission-dialog.tsx:48): every character
      outside `[a-zA-Z0-9._]` is deleted; the others keep their case and order. */
  function Sanitize(s: string): (r: string)
    ensures IsSanitized(r)
    ensures forall c :: c in r <==> c in s && IsPermissionChar(c)
    ensures IsSubseq(r, s)
  {
    KeepIsSubseq(s, IsPermissionChar);
    Keep(s, IsPermissionChar)
  }

  /** A sanitized value is its own sanitization, so sanitizing is idempotent. */
  lemma SanitizeKeepsSanitized(s: string)
    requires IsSanitized(s)
    ensures Sanitize(s) == s
  {
    KeepAll(s, IsPermissionChar);
  }

  lemma SanitizeIdempotent(s: string)
    ensures Sanitize(Sanitize(s)) == Sanitize(s)
  {
    SanitizeKeepsSanitized(Sanitize(s));
  }

  /** Sanitizing works character by character. */
  lemma SanitizeAppend(a: string, b: string)
    ensures Sanitize(a + b) == Sanitize(a) + Sanitize(b)
  {
    KeepAppend(a, b, IsPermissionChar);
  }

  /** The action list after `handleAddActions` as written
      (new-permission-dialog.tsx:75-82): `actions.find(...)` yields the listed
      string, and the empty string is falsy, so a listed '' does not stop a
      second one from being added. */
  function AddedActionsAsWritten(actions: seq<string>, action: string): (r: seq<string>)
    ensures action in actions && action != [] ==> r == actions
    ensures !(action in actions && action != []) ==> r == actions + [action]
  {
    if action in actions && action != [] then actions else actions + [action]
  }

  /** Enter on an empty action field twice lists '' twice
      (new-permission-dialog.tsx:76-80, 118-121). */
  lemma AsWrittenAddsEmptyTwice()
    ensures AddedActionsAsWritten(AddedActionsAsWritten([], ""), "") == ["", ""]
    ensures !NoDup(AddedActionsAsWritten(AddedActionsAsWritten([], ""), ""))
  {
    assert AddedActionsAsWritten([], "") == [""];
    assert ["", ""][0] == ["", ""][1];
  }

  /** The action list after adding `action` as intended: a listed action is not
      added again, any other one is appended. */
  function AddedActions(actions: seq<string>, action: string): (r: seq<string>)
    ensures action in r
    ensures forall a :: a in r <==> a in actions || a == action
    ensures action in actions ==> r == actions
    ensures action !in actions ==> r == actions + [action]
  {
    if action in actions then actions else actions + [action]
  }

  /** Adding as intended never creates a duplicate. */
  lemma AddedActionsNoDup(actions: seq<string>, action: string)
    requires NoDup(actions)
    ensures NoDup(AddedActions(actions, action))
  {
    if action !in actions {
      NoDupSnoc(actions, action);
    }
  }

  /** The two agree except when the action is the empty string. */
  lemma AsWrittenAgreesOnNonEmpty(actions: seq<string>, action: string)
    requires action != []
    ensures AddedActionsAsWritten(actions, action) == AddedActions(actions, action)
  {
  }

  /** Removing an action from a duplicate-free list cuts out its one position
      (new-permission-dialog.tsx:84-86). */
  lemma RemoveListedAction(actions: seq<string>, i: nat)
    requires NoDup(actions) && i < |actions|
    ensures Remove(actions, actions[i]) == actions[..i] + actions[i + 1..]
    ensures |Remove(actions, actions[i])| == |actions| - 1
  {
    RemoveNoDupAt(actions, i);
  }

  /** The create requests a submit issues: one `{object: resource, action}` per
      listed action, in list order (new-permission-dialog.tsx:53-56). */
  function CreateRequests(resource: string, actions: seq<string>): (r: seq<PermissionData>)
    ensures |r| == |actions|
    ensures forall i :: 0 <= i < |r| ==> r[i] == PermissionData(resource, actions[i])
  {
    if actions == [] then [] else [PermissionData(resource, actions[0])] + CreateRequests(resource, actions[1..])
  }

  /** The dialog's state: the two input fields and the collected actions. */
  class NewPermissionForm {
    var resource: string
    var action: string
    var actions: seq<string>

    /** Both fields hold sanitized text and the list has no duplicates. */
    predicate Valid()
      reads this
    {
      IsSanitized(resource) && IsSanitized(action) && NoDup(actions)
      && forall a :: a in actions ==> IsSanitized(a)
    }

    constructor ()
      ensures Valid()
      ensures resource == [] && action == [] && actions == []
    {
      resource, action, actions := [], [], [];
    }

    /** The resource field's change handler (new-permission-dialog.tsx:104). */
    method TypeResource(raw: string)
      requires Valid()
      modifies this
      ensures Valid()
      ensures resource == Sanitize(raw) && action == old(action) && actions == old(actions)
    {
      resource := Sanitize(raw);
    }

    /** The action field's change handler (new-permission-dialog.tsx:116). */
    method TypeAction(raw: string)
      requires Valid()
      modifies this
      ensures Valid()
      ensures action == Sanitize(raw) && resource == old(resource) && actions == old(actions)
    {
      action := Sanitize(raw);
    }

    /** The Add button is enabled only for a non-empty action (new-permission-dialog.tsx:124). */
    predicate AddEnabled()
      reads this
    {
      action != []
    }

    /** `handleAddActions` with the membership test intended: a listed action
      changes nothing, any other one is appended and the field cleared
      (new-permission-dialog.tsx:75-82). */
    method AddAction()
      requires Valid()
      modifies this
      ensures Valid()
      ensures actions == AddedActions(old(actions), old(action))
      ensures action == (if old(action) in old(actions) then old(action) else [])
      ensures resource == old(resource)
    {
      AddedActionsNoDup(actions, action);
      if action !in actions {
        actions := actions + [action];
        action := [];
      }
    }

    /** `handleRemoveAction` (new-permission-dialog.tsx:84-86): the action goes,
      the others stay in their order. */
    method RemoveAction(a: string)
      requires Valid()
      modifies this
      ensures Valid()
      ensures actions == Remove(old(actions), a)
      ensures a !in actions && IsSubseq(actions, old(actions))
      ensures a in old(actions) ==> |actions| == |old(actions)| - 1
      ensures resource == old(resource) && action == old(action)
    {
      if a in actions {
        var i :| 0 <= i < |actions| && actions[i] == a;
        RemoveListedAction(actions, i);
      }
      RemoveSubseqNoDup(actions, a);
      actions := Remove(actions, a);
    }

    /** The Save button is enabled only when idle with a resource and some action
      (new-permission-dialog.tsx:153). */
    predicate SaveEnabled(isCreating: bool)
      reads this
    {
      !isCreating && actions != [] && resource != []
    }

    /** `handleSubmit` (new-permission-dialog.tsx:50-73). Without a resource or
      without actions nothing is sent. Otherwise the requests are issued; when
      they all succeed the dialog is asked to close and every field is reset,
      and when one fails everything is kept. */
    method Submit(allSucceeded: bool) returns (requests: seq<PermissionData>, close: bool)
      requires Valid()
      modifies this
      ensures Valid()
      ensures old(resource) == [] || old(actions) == [] ==>
                requests == [] && !close && unchanged(this)
      ensures old(resource) != [] && old(actions) != [] ==>
                requests == CreateRequests(old(resource), old(actions)) && close == allSucceeded
      ensures old(resource) != [] && old(actions) != [] && allSucceeded ==>
                resource == [] && action == [] && actions == []
      ensures !allSucceeded ==> unchanged(this)
    {
      if resource == [] || actions == [] {
        return [], false;
      }
      requests := CreateRequests(resource, actions);
      close := allSucceeded;
      if allSucceeded {
        resource, action, actions := [], [], [];
      }
    }
  }

  /** Save enabled while idle is exactly the submit guard passing. */
  lemma SaveEnabledIsSubmitGuard(f: NewPermissionForm)
    ensures f.SaveEnabled(false) <==> !(f.resource == [] || f.actions == [])
  {
  }
}
