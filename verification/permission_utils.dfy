/** The mapping between stored permissions and permission form values
    (app/resources/queries/permissions/permission.utils.ts). */
module PermissionUtils {
  import opened SeqUtil
  import opened PermissionSchema

  /** A permission as the API returns it (`PermissionType`). */
  datatype Permission = Permission(id: string, obj: string, action: string, createdAt: string, updatedAt: string)

  /** The data the create call takes (`CreatePermissionData`). */
  datatype PermissionData = PermissionData(obj: string, action: string)

  /** `permissionToFormValues` (permission.utils.ts:7-15): every field copied unchanged. */
  function PermissionToFormValues(p: Permission): (v: PermissionFormValue)
    ensures v.id == Some(p.id) && v.obj == p.obj && v.action == p.action
    ensures v.createdAt == Some(p.createdAt) && v.updatedAt == Some(p.updatedAt)
  {
    PermissionFormValue(Some(p.id), p.obj, p.action, Some(p.createdAt), Some(p.updatedAt))
  }

  /** `formValuesToPermissionData` (permission.utils.ts:20-27): object and action only. */
  function FormValuesToPermissionData(v: PermissionFormValue): (d: PermissionData)
    ensures d.obj == v.obj && d.action == v.action
  {
    PermissionData(v.obj, v.action)
  }

  /** Round trip (permission.utils.ts:7-27). */
  lemma PermissionRoundTrip(p: Permission)
    ensures FormValuesToPermissionData(PermissionToFormValues(p)) == PermissionData(p.obj, p.action)
  {
  }

  /** The form accepts a stored permission with non-empty fields, as it is. */
  lemma EditFormAcceptsStoredPermission(p: Permission)
    requires p.obj != [] && p.action != []
    ensures ParsePermissionForm(AsFormInput(PermissionToFormValues(p))) == Ok(PermissionToFormValues(p))
  {
  }

  /** Form validation then mapping gives exactly what was typed, for any valid input. */
  lemma ValidFormSubmitsTypedValues(input: PermissionFormInput)
    requires ParsePermissionForm(input).Ok?
    ensures FormValuesToPermissionData(ParsePermissionForm(input).value)
            == PermissionData(input.obj.value, input.action.value)
  {
  }

  /** The object `formValuesToPermissionData` builds (permission.utils.ts:23-26),
      as its keys and their values: `object` and `action`. */
  function AsObject(d: PermissionData): (o: map<string, string>)
    ensures o.Keys == {"object", "action"}
    ensures o["object"] == d.obj && o["action"] == d.action
  {
    map["object" := d.obj, "action" := d.action]
  }

  /** What the API schema reads off an object (permission.schema.ts:10-13): its
      `ob` and `action` keys, missing where the object has no such key. */
  function ApiFields(o: map<string, string>): (i: ApiInput)
    ensures i.ob.Some? <==> "ob" in o
    ensures i.action.Some? <==> "action" in o
    ensures "ob" in o ==> i.ob.value == o["ob"]
    ensures "action" in o ==> i.action.value == o["action"]
  {
    ApiInput(if "ob" in o then Some(o["ob"]) else None, if "action" in o then Some(o["action"]) else None)
  }

  /** The mapped data names its field `object`, not `ob`: read by the API schema
      it always fails on `ob`, and on `action` exactly when the action is empty. */
  lemma MappedDataLacksOb(v: PermissionFormValue)
    ensures var r := ParsePermission(ApiFields(AsObject(FormValuesToPermissionData(v))));
            r.Failed? && Ob in r.issues && (Action in r.issues <==> v.action == [])
  {
  }
}
