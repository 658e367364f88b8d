/** The permission check dialog (app/components/users/permission-check.tsx): the
    resource options built from a permission search, the actions offered for the
    chosen resource, the request payload, the error text and the result display. */
module PermissionCheck {
  import opened SeqUtil
  import opened JsText
  import opened PermissionUtils
  import opened PermissionGroups

  /** An entry of a select: its label and its value. */
  datatype Choice = Choice(caption: string, value: string)

  /** A resource option with its actions as children. */
  datatype PermissionOption = PermissionOption(caption: string, value: string, children: seq<Choice>)

  /** The objects of `items`, in item order, repeats kept. */
  function ObjectSeq(items: seq<PermissionData>): (r: seq<string>)
    ensures |r| == |items|
    ensures forall x :: x in r <==> x in Objects(items)
  {
    var r := seq(|items|, i requires 0 <= i < |items| => items[i].obj);
    assert forall x :: x in r ==> x in Objects(items);
    assert forall x :: x in Objects(items) ==> x in r by {
      forall x | x in Objects(items) ensures x in r {
        var i :| 0 <= i < |items| && items[i].obj == x;
        assert r[i] == x;
      }
    }
    r
  }

  lemma ObjectSeqSnoc(items: seq<PermissionData>, p: PermissionData)
    ensures ObjectSeq(items + [p]) == ObjectSeq(items) + [p.obj]
  {
  }

  /** Each action as a select entry labelled by itself. */
  function Choices(actions: seq<string>): (r: seq<Choice>)
    ensures |r| == |actions|
    ensures forall j :: 0 <= j < |r| ==> r[j].caption == actions[j] && r[j].value == actions[j]
  {
    seq(|actions|, j requires 0 <= j < |actions| => Choice(actions[j], actions[j]))
  }

  /** The options the dialog should offer: every object once, in the order it
      first appears, each with its distinct actions in the order they first
      appear. This is the reference the option builder is proved against. */
  function OptionsSpec(items: seq<PermissionData>): (r: seq<PermissionOption>)
    ensures |r| == |Distinct(ObjectSeq(items))|
    ensures forall k :: 0 <= k < |r| ==>
              r[k].value == Distinct(ObjectSeq(items))[k] && r[k].caption == r[k].value
              && r[k].children == Choices(Distinct(ActionsOf(items, r[k].value)))
  {
    var order := Distinct(ObjectSeq(items));
    seq(|order|, k requires 0 <= k < |order| =>
      PermissionOption(order[k], order[k], Choices(Distinct(ActionsOf(items, order[k])))))
  }

  /** Every action in an object's list comes from an item on that object. */
  lemma {:induction false} ActionsOfFromItem(items: seq<PermissionData>, o: string, a: string)
    requires a in ActionsOf(items, o)
    ensures exists i :: 0 <= i < |items| && items[i] == PermissionData(o, a)
  {
    var init, p := items[..|items| - 1], items[|items| - 1];
    assert init + [p] == items;
    ActionsOfSnoc(init, p, o);
    if a in ActionsOf(init, o) {
      ActionsOfFromItem(init, o, a);
      var i :| 0 <= i < |init| && init[i] == PermissionData(o, a);
      assert items[i] == init[i];
    } else {
      assert items[|items| - 1] == PermissionData(o, a);
    }
  }

  /** The options list every object exactly once, and under each object every
      action of its items exactly once; nothing else is listed. */
  lemma OptionsSpecComplete(items: seq<PermissionData>, i: nat)
    requires i < |items|
    ensures exists k :: 0 <= k < |OptionsSpec(items)| && OptionsSpec(items)[k].value == items[i].obj
                        && Choice(items[i].action, items[i].action) in OptionsSpec(items)[k].children
  {
    var options, order := OptionsSpec(items), Distinct(ObjectSeq(items));
    assert items[i].obj in Objects(items);
    var k :| 0 <= k < |order| && order[k] == items[i].obj;
    ActionsOfHasItem(items, i);
    var acts := Distinct(ActionsOf(items, items[i].obj));
    var j :| 0 <= j < |acts| && acts[j] == items[i].action;
    assert options[k].children[j] == Choice(items[i].action, items[i].action);
  }

  lemma OptionsSpecSound(items: seq<PermissionData>, k: nat, c: Choice)
    requires k < |OptionsSpec(items)| && c in OptionsSpec(items)[k].children
    ensures c.caption == c.value
    ensures exists i :: 0 <= i < |items| && items[i] == PermissionData(OptionsSpec(items)[k].value, c.value)
  {
    var o := OptionsSpec(items)[k].value;
    var acts := Distinct(ActionsOf(items, o));
    var j :| 0 <= j < |acts| && OptionsSpec(items)[k].children[j] == c;
    assert acts[j] in ActionsOf(items, o);
    ActionsOfFromItem(items, o, c.value);
  }

  lemma OptionsSpecNoDup(items: seq<PermissionData>)
    ensures forall k, l :: 0 <= k < l < |OptionsSpec(items)| ==> OptionsSpec(items)[k].value != OptionsSpec(items)[l].value
    ensures forall k :: 0 <= k < |OptionsSpec(items)| ==> NoDup(OptionsSpec(items)[k].children)
  {
    var options := OptionsSpec(items);
    forall k | 0 <= k < |options| ensures NoDup(options[k].children) {
      var acts := Distinct(ActionsOf(items, options[k].value));
      assert forall j, l :: 0 <= j < l < |acts| ==> options[k].children[j].value != options[k].children[l].value;
    }
  }

  /** The `Map` of `permissionOptions`: the objects in insertion order and the
      actions listed for each. It describes `prefix` when it lists the prefix's
      objects and, for each, its distinct actions. */
  predicate Describes(prefix: seq<PermissionData>, order: seq<string>, actionsByObject: map<string, seq<string>>) {
    order == Distinct(ObjectSeq(prefix))
    && actionsByObject.Keys == Objects(prefix)
    && forall o :: o in actionsByObject ==> actionsByObject[o] == Distinct(ActionsOf(prefix, o))
  }

  /** One pass of the `forEach` body keeps the insertion order of the objects. */
  lemma OrderStep(prefix: seq<PermissionData>, p: PermissionData, order: seq<string>)
    requires order == Distinct(ObjectSeq(prefix))
    ensures (if p.obj in Objects(prefix) then order else order + [p.obj]) == Distinct(ObjectSeq(prefix + [p]))
  {
    ObjectSeqSnoc(prefix, p);
    DistinctSnoc(ObjectSeq(prefix), p.obj);
  }

  /** One pass of the `forEach` body gives the item's object its distinct
      actions so far. */
  lemma ExistingStep(prefix: seq<PermissionData>, p: PermissionData, existing: seq<string>)
    requires existing == Distinct(ActionsOf(prefix, p.obj))
    ensures (if p.action in existing then existing else existing + [p.action]) == Distinct(ActionsOf(prefix + [p], p.obj))
  {
    ActionsOfSnoc(prefix, p, p.obj);
    DistinctSnoc(ActionsOf(prefix, p.obj), p.action);
  }

  /** One pass of the `forEach` body keeps each object's entry its distinct
      actions so far. */
  lemma MapStep(prefix: seq<PermissionData>, p: PermissionData,
                actionsByObject: map<string, seq<string>>, existing: seq<string>)
    requires actionsByObject.Keys == Objects(prefix)
    requires forall o :: o in actionsByObject ==> actionsByObject[o] == Distinct(ActionsOf(prefix, o))
    requires existing == if p.obj in actionsByObject then actionsByObject[p.obj] else []
    ensures var m := actionsByObject[p.obj := if p.action in existing then existing else existing + [p.action]];
            m.Keys == Objects(prefix + [p])
            && forall o :: o in m ==> m[o] == Distinct(ActionsOf(prefix + [p], o))
  {
    ObjectsSnoc(prefix, p);
    if p.obj in actionsByObject {
      assert existing == Distinct(ActionsOf(prefix, p.obj));
    } else {
      ActionsOfAbsent(prefix, p.obj);
      assert existing == Distinct(ActionsOf(prefix, p.obj));
    }
    ExistingStep(prefix, p, existing);
    var updated := if p.action in existing then existing else existing + [p.action];
    var m := actionsByObject[p.obj := updated];
    assert m.Keys == actionsByObject.Keys + {p.obj};
    forall o | o in m ensures m[o] == Distinct(ActionsOf(prefix + [p], o)) {
      if o == p.obj {
        assert m[o] == updated;
      } else {
        ActionsOfSnoc(prefix, p, o);
        assert ActionsOf(prefix + [p], o) == ActionsOf(prefix, o) + [];
        assert ActionsOf(prefix, o) + [] == ActionsOf(prefix, o);
        assert m[o] == actionsByObject[o];
      }
    }
  }

  /** The `Map` of `permissionOptions` once the `forEach` has seen `prefix`:
      each item's object gets an entry, and its action is appended unless listed. */
  function ActionsMap(prefix: seq<PermissionData>): map<string, seq<string>>
    decreases |prefix|
  {
    if prefix == [] then map[]
    else
      var init, p := prefix[..|prefix| - 1], prefix[|prefix| - 1];
      var m := ActionsMap(init);
      var existing := if p.obj in m then m[p.obj] else [];
      m[p.obj := if p.action in existing then existing else existing + [p.action]]
  }

  /** One more item updates the map as one pass of the `forEach` body does. */
  lemma ActionsMapSnoc(prefix: seq<PermissionData>, p: PermissionData)
    ensures var m := ActionsMap(prefix);
            var existing := if p.obj in m then m[p.obj] else [];
            ActionsMap(prefix + [p]) == m[p.obj := if p.action in existing then existing else existing + [p.action]]
  {
    assert (prefix + [p])[..|prefix|] == prefix;
  }

  /** The map lists exactly the objects seen, each with its distinct actions. */
  lemma {:induction false} ActionsMapDescribes(prefix: seq<PermissionData>)
    ensures Describes(prefix, Distinct(ObjectSeq(prefix)), ActionsMap(prefix))
    decreases |prefix|
  {
    if prefix == [] {
      assert Objects(prefix) == {};
    } else {
      var init, p := prefix[..|prefix| - 1], prefix[|prefix| - 1];
      assert init + [p] == prefix;
      ActionsMapDescribes(init);
      ActionsMapSnoc(init, p);
      var m := ActionsMap(init);
      MapStep(init, p, m, if p.obj in m then m[p.obj] else []);
    }
  }

  /** A new object joins the insertion order exactly when the map has no entry
      for it yet. */
  lemma OrderMapStep(prefix: seq<PermissionData>, p: PermissionData)
    ensures (if p.obj in ActionsMap(prefix) then Distinct(ObjectSeq(prefix)) else Distinct(ObjectSeq(prefix)) + [p.obj])
            == Distinct(ObjectSeq(prefix + [p]))
  {
    ActionsMapDescribes(prefix);
    OrderStep(prefix, p, Distinct(ObjectSeq(prefix)));
  }

  /** `permissionOptions` (permission-check.tsx:150-171): a `Map` from object to
      its actions, filled item by item, an action appended only when not yet
      listed, the objects kept in insertion order; missing data gives no options. */
  method BuildOptions(permissions: Option<seq<PermissionData>>) returns (options: seq<PermissionOption>)
    ensures options == OptionsSpec(permissions.GetOr([]))
  {
    var items := permissions.GetOr([]);
    var order: seq<string> := [];
    var actionsByObject: map<string, seq<string>> := map[];
    var i := 0;
    while i < |items|
      invariant 0 <= i <= |items|
      invariant order == Distinct(ObjectSeq(items[..i]))
      invariant actionsByObject == ActionsMap(items[..i])
    {
      var p := items[i];
      ghost var prefix := items[..i];
      var existing := if p.obj in actionsByObject then actionsByObject[p.obj] else [];
      if p.action !in existing {
        existing := existing + [p.action];
      }
      if p.obj !in actionsByObject {
        order := order + [p.obj];
      }
      actionsByObject := actionsByObject[p.obj := existing];
      assert items[..i + 1] == prefix + [p];
      OrderMapStep(prefix, p);
      ActionsMapSnoc(prefix, p);
      i := i + 1;
    }
    assert items[..i] == items;
    DescribedKeys(items, order, actionsByObject);
    options := ReadOptions(order, actionsByObject);
    DescribedOptions(items, order, actionsByObject, options);
  }

  /** `Array.from(map.entries()).map(...)`: one option per object of the
      insertion order, with the actions listed for it. */
  function ReadOptions(order: seq<string>, actionsByObject: map<string, seq<string>>): (r: seq<PermissionOption>)
    requires forall k :: 0 <= k < |order| ==> order[k] in actionsByObject
    ensures |r| == |order|
    ensures forall k :: 0 <= k < |order| ==>
              r[k] == PermissionOption(order[k], order[k], Choices(actionsByObject[order[k]]))
  {
    seq(|order|, k requires 0 <= k < |order| =>
      PermissionOption(order[k], order[k], Choices(actionsByObject[order[k]])))
  }

  /** A map describing the items has an entry for every object of the order. */
  lemma DescribedKeys(items: seq<PermissionData>, order: seq<string>, actionsByObject: map<string, seq<string>>)
    requires order == Distinct(ObjectSeq(items)) && actionsByObject == ActionsMap(items)
    ensures forall k :: 0 <= k < |order| ==> order[k] in actionsByObject
  {
    ActionsMapDescribes(items);
    forall k | 0 <= k < |order| ensures order[k] in actionsByObject {
      assert order[k] in ObjectSeq(items);
    }
  }

  /** Reading a map that describes the items in its insertion order gives the
      specified options. */
  lemma DescribedOptions(items: seq<PermissionData>, order: seq<string>, actionsByObject: map<string, seq<string>>,
                         options: seq<PermissionOption>)
    requires order == Distinct(ObjectSeq(items)) && actionsByObject == ActionsMap(items)
    requires |options| == |order|
    requires forall k :: 0 <= k < |order| ==>
               order[k] in actionsByObject
               && options[k] == PermissionOption(order[k], order[k], Choices(actionsByObject[order[k]]))
    ensures options == OptionsSpec(items)
  {
    ActionsMapDescribes(items);
    assert forall k :: 0 <= k < |options| ==> options[k] == OptionsSpec(items)[k];
  }

  /** `options.find((val) => val.value === value)`: the first option with that value. */
  function FindOption(options: seq<PermissionOption>, value: string): (r: Option<PermissionOption>)
    ensures r.None? <==> forall k :: 0 <= k < |options| ==> options[k].value != value
    ensures r.Some? ==> exists k :: 0 <= k < |options| && options[k] == r.value && r.value.value == value
                                   && forall l :: 0 <= l < k ==> options[l].value != value
  {
    if options == [] then None
    else if options[0].value == value then Some(options[0])
    else
      var r := FindOption(options[1..], value);
      assert forall k :: 1 <= k < |options| ==> options[k] == options[1..][k - 1];
      r
  }

  /** The actions offered for the chosen resource (permission-check.tsx:85-94):
      none without a resource, else the children of its option, none when no
      option has that value. */
  function OfferedActions(options: seq<PermissionOption>, selectedResource: string): (r: seq<Choice>)
    ensures selectedResource == [] ==> r == []
    ensures FindOption(options, selectedResource).None? ==> r == []
    ensures selectedResource != [] && FindOption(options, selectedResource).Some? ==>
              r == FindOption(options, selectedResource).value.children
  {
    if selectedResource == [] then []
    else match FindOption(options, selectedResource)
      case None => []
      case Some(o) => o.children
  }

  /** Choosing a resource from the built options offers exactly its distinct
      actions; a value no item names offers nothing. */
  lemma OfferedActionsOfObject(items: seq<PermissionData>, o: string)
    requires o != []
    ensures o in Objects(items) ==> OfferedActions(OptionsSpec(items), o) == Choices(Distinct(ActionsOf(items, o)))
    ensures o !in Objects(items) ==> OfferedActions(OptionsSpec(items), o) == []
  {
    var options := OptionsSpec(items);
    var order := Distinct(ObjectSeq(items));
    if o in Objects(items) {
      var k :| 0 <= k < |order| && order[k] == o;
      FindOptionAt(options, o, k);
      var j :| 0 <= j < |options| && options[j] == FindOption(options, o).value;
      assert options[j].value == o;
    } else {
      assert forall k :: 0 <= k < |options| ==> options[k].value in order;
    }
  }

  /** A value some option carries is found, at an option carrying it. */
  lemma FindOptionAt(options: seq<PermissionOption>, value: string, k: nat)
    requires k < |options| && options[k].value == value
    ensures FindOption(options, value).Some?
    ensures exists j :: 0 <= j < |options| && options[j] == FindOption(options, value).value
    ensures FindOption(options, value).value.value == value
  {
  }

  /** The auto-selection effect (permission-check.tsx:96-100): a single offered
      action becomes the chosen action; otherwise the choice is left alone. */
  function AutoSelect(actions: seq<Choice>, current: string): (r: string)
    ensures |actions| == 1 ==> r == actions[0].value
    ensures |actions| != 1 ==> r == current
  {
    if |actions| == 1 then actions[0].value else current
  }

  /** A non-empty sequence whose elements all equal `a` has `a` as its only
      distinct element. */
  lemma {:induction false} DistinctOfConstant(s: seq<string>, a: string)
    requires s != [] && forall x :: x in s ==> x == a
    ensures Distinct(s) == [a]
  {
    var init := s[..|s| - 1];
    assert s[|s| - 1] in s;
    if init != [] {
      assert forall x :: x in init ==> x in s;
      DistinctOfConstant(init, a);
    }
  }

  /** When every permission on a resource has the same action, choosing that
      resource selects that action. */
  lemma SingleActionSelected(items: seq<PermissionData>, i: nat, current: string)
    requires i < |items| && items[i].obj != []
    requires forall j :: 0 <= j < |items| && items[j].obj == items[i].obj ==> items[j].action == items[i].action
    ensures AutoSelect(OfferedActions(OptionsSpec(items), items[i].obj), current) == items[i].action
  {
    var o, a := items[i].obj, items[i].action;
    assert o in Objects(items);
    OfferedActionsOfObject(items, o);
    ActionsOfHasItem(items, i);
    forall x | x in ActionsOf(items, o) ensures x == a {
      ActionsOfFromItem(items, o, x);
    }
    DistinctOfConstant(ActionsOf(items, o), a);
  }

  /** The search runs only with a token and more than three characters after
      trimming (permission-check.tsx:145-147). */
  predicate SearchEnabled(hasToken: bool, searchValue: string) {
    hasToken && |Trim(searchValue)| > 3
  }

  /** A search that runs sends a query of at least four characters with no
      whitespace at either end, so a blank search value never runs one. */
  lemma SearchQueryShape(hasToken: bool, searchValue: string)
    requires SearchEnabled(hasToken, searchValue)
    ensures hasToken && !IsBlank(searchValue)
    ensures |Trim(searchValue)| >= 4 && !IsWhitespace(Trim(searchValue)[0])
    ensures Trim(Trim(searchValue)) == Trim(searchValue)
  {
    TrimNoOuterWhitespace(Trim(searchValue));
  }

  /** The fields of the check form. */
  datatype CheckField = Resource | Action | Domain

  /** The values the form holds. */
  datatype CheckFormValues = CheckFormValues(resource: string, action: string, domain: string)

  /** The default values (permission-check.tsx:197-201). */
  const CheckFormDefault := CheckFormValues("", "", "*")

  /** The outcome of validating the form. */
  datatype Validated = Valid(values: CheckFormValues) | Invalid(issues: set<CheckField>)

  /** `permissionCheckSchema` (permission-check.tsx:44-48): all three fields are
      required to be non-empty, and every empty one is reported. */
  function ValidateCheckForm(v: CheckFormValues): (r: Validated)
    ensures r.Valid? <==> v.resource != [] && v.action != [] && v.domain != []
    ensures r.Valid? ==> r.values == v
    ensures r.Invalid? ==> forall f :: f in r.issues <==>
              (f == Resource && v.resource == []) || (f == Action && v.action == []) || (f == Domain && v.domain == [])
  {
    var issues := (if v.resource == [] then {Resource} else {})
                + (if v.action == [] then {Action} else {})
                + (if v.domain == [] then {Domain} else {});
    if issues == {} then Valid(v) else Invalid(issues)
  }

  /** The body of the check request. */
  datatype CheckPayload = CheckPayload(resource: string, action: string, domain: string)

  /** The payload of `handleSubmit` (permission-check.tsx:179-183): an empty
      domain becomes '*'. */
  function Payload(v: CheckFormValues): (p: CheckPayload)
    ensures p.resource == v.resource && p.action == v.action
    ensures v.domain == [] ==> p.domain == "*"
    ensures v.domain != [] ==> p.domain == v.domain
  {
    CheckPayload(v.resource, v.action, if v.domain == [] then "*" else v.domain)
  }

  /** The form only submits validated values, whose domain is never empty, so the
      payload sends exactly what was entered: the '*' fallback is never used. */
  lemma SubmittedPayloadIsEntered(v: CheckFormValues)
    requires ValidateCheckForm(v).Valid?
    ensures Payload(ValidateCheckForm(v).values) == CheckPayload(v.resource, v.action, v.domain)
  {
  }

  /** The default form fails on the resource and the action only. */
  lemma DefaultFormIssues()
    ensures ValidateCheckForm(CheckFormDefault) == Invalid({Resource, Action})
  {
  }

  /** What a rejected request throws: an `Error` with a message, or anything else. */
  datatype Thrown = ErrorObject(message: string) | NotAnError

  /** What `JSON.parse` makes of a message: not JSON, or a value whose `error`
      property is a string, or is missing (also for `null` and non-objects). */
  datatype JsonReading = NotJson | JsonValue(errorText: Option<string>)

  const FallbackMessage := "Something went wrong while checking permission."

  /** `getErrorMessage` (permission-check.tsx:50-61), with `JSON.parse` as the
      parameter `read`: a non-Error gives the fixed text; an Error gives the
      non-empty `error` property of its JSON message, else the message itself. */
  function GetErrorMessage(error: Thrown, read: string -> JsonReading): (m: string)
    ensures error.NotAnError? ==> m == FallbackMessage
    ensures error.ErrorObject? && read(error.message).NotJson? ==> m == error.message
    ensures error.ErrorObject? && read(error.message).JsonValue? ==>
              (m == error.message && read(error.message).errorText.GetOr("") == [])
              || (m != [] && read(error.message).errorText == Some(m))
    ensures m == [] ==> error == ErrorObject([])
  {
    match error
    case NotAnError => FallbackMessage
    case ErrorObject(message) =>
      match read(message)
      case NotJson => message
      case JsonValue(text) => if text.GetOr("") != [] then text.value else message
  }

  /** The answer of the check endpoint. */
  datatype CheckResponse = CheckResponse(allowed: bool, resource: string, action: string, domain: string, reason: string)

  /** How the request ended. */
  datatype Outcome = Responded(response: CheckResponse) | Rejected(error: Thrown)

  /** The result and error state after a submit (permission-check.tsx:175-191):
      both are cleared, then exactly one of them is set. */
  datatype CheckState = CheckState(result: Option<CheckResponse>, errorMessage: Option<string>)

  function AfterSubmit(outcome: Outcome, read: string -> JsonReading): (s: CheckState)
    ensures s.result.Some? <==> outcome.Responded?
    ensures s.errorMessage.Some? <==> outcome.Rejected?
    ensures outcome.Responded? ==> s.result.value == outcome.response
    ensures outcome.Rejected? ==> s.errorMessage.value == GetErrorMessage(outcome.error, read)
  {
    match outcome
    case Responded(r) => CheckState(Some(r), None)
    case Rejected(e) => CheckState(None, Some(GetErrorMessage(e, read)))
  }

  /** The domain shown in the result (permission-check.tsx:274-283): its first
      eight characters, the whole value in a tooltip when it is longer. */
  function ShownDomain(domain: string): (r: string)
    ensures r == domain[..if |domain| > 8 then 8 else |domain|]
    ensures |r| <= 8
  {
    if |domain| > 8 then (if domain[..8] == [] then "N/A" else domain[..8]) else domain
  }

  /** The tooltip with the whole domain is shown exactly when the domain is cut. */
  predicate DomainHasTooltip(domain: string) {
    |domain| > 8
  }

  lemma ShownDomainCut(domain: string)
    ensures ShownDomain(domain) == domain <==> !DomainHasTooltip(domain)
  {
  }

  /** The reason shown (permission-check.tsx:288): 'N/A' when empty. */
  function ShownReason(reason: string): (r: string)
    ensures r != []
    ensures reason != [] ==> r == reason
  {
    if reason == [] then "N/A" else reason
  }

  /** The status badge (permission-check.tsx:252-260). */
  function StatusBadge(allowed: bool): (r: string)
    ensures r == "Allowed" <==> allowed
    ensures r == "Denied" <==> !allowed
  {
    if allowed then "Allowed" else "Denied"
  }
}
