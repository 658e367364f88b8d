/** The permission schemas (app/resources/queries/permissions/permission.schema.ts).
    The API schema names the object field `ob`; the form calls it `object`
    (`obj` here, `object` being a Dafny keyword). */
module PermissionSchema {
  import opened SeqUtil

  /** The fields a permission schema can report an issue on. */
  datatype PermissionField = Ob | Object | Action

  /** The outcome of a schema's `safeParse`. */
  datatype Parsed<T> = Ok(value: T) | Failed(issues: set<PermissionField>)

  /** An object handed to the API schemas: `{ ob, action }`, each possibly missing. */
  datatype ApiInput = ApiInput(ob: Option<string>, action: Option<string>)

  /** The record `permissionSchema` yields. */
  datatype ApiPermission = ApiPermission(ob: string, action: string)

  /** The partial record `updatePermissionSchema` yields. */
  datatype ApiUpdate = ApiUpdate(ob: Option<string>, action: Option<string>)

  /** The values of the permission form (`permissionFormValue`). */
  datatype PermissionFormValue = PermissionFormValue(
    id: Option<string>, obj: string, action: string,
    createdAt: Option<string>, updatedAt: Option<string>)

  /** An object handed to the form schema. */
  datatype PermissionFormInput = PermissionFormInput(
    id: Option<string>, obj: Option<string>, action: Option<string>,
    createdAt: Option<string>, updatedAt: Option<string>)

  /** `z.string().min(1)`: present and non-empty. */
  predicate Filled(v: Option<string>) {
    v.Some? && v.value != []
  }

  /** `permissionSchema.safeParse(input)`, also `createPermissionSchema`
      (permission.schema.ts:10-13, 18): `ob` and `action` are required and non-empty. */
  function ParsePermission(input: ApiInput): (r: Parsed<ApiPermission>)
    ensures r.Ok? <==> Filled(input.ob) && Filled(input.action)
    ensures r.Ok? ==> r.value == ApiPermission(input.ob.value, input.action.value)
    ensures r.Failed? ==> (Ob in r.issues <==> !Filled(input.ob)) && (Action in r.issues <==> !Filled(input.action))
    ensures r.Failed? ==> Object !in r.issues
  {
    if Filled(input.ob) && Filled(input.action) then
      Ok(ApiPermission(input.ob.value, input.action.value))
    else
      Failed((if Filled(input.ob) then {} else {Ob}) + (if Filled(input.action) then {} else {Action}))
  }

  /** `updatePermissionSchema.safeParse(input)` (permission.schema.ts:23): both
      fields may be missing, but a present one must be non-empty. */
  function ParsePermissionUpdate(input: ApiInput): (r: Parsed<ApiUpdate>)
    ensures r.Ok? <==> (input.ob.None? || input.ob.value != []) && (input.action.None? || input.action.value != [])
    ensures r.Ok? ==> r.value == ApiUpdate(input.ob, input.action)
    ensures r.Failed? ==> r.issues != {} && r.issues <= {Ob, Action}
  {
    var bad := (if input.ob == Some("") then {Ob} else {}) + (if input.action == Some("") then {Action} else {});
    if bad == {} then Ok(ApiUpdate(input.ob, input.action)) else Failed(bad)
  }

  /** `permissinFormSchema.safeParse(input)` (permission.schema.ts:28-34): object
      and action are required and non-empty, the rest is optional and copied. */
  function ParsePermissionForm(input: PermissionFormInput): (r: Parsed<PermissionFormValue>)
    ensures r.Ok? <==> Filled(input.obj) && Filled(input.action)
    ensures r.Ok? ==> r.value == PermissionFormValue(input.id, input.obj.value, input.action.value,
                                                     input.createdAt, input.updatedAt)
    ensures r.Failed? ==> (Object in r.issues <==> !Filled(input.obj)) && (Action in r.issues <==> !Filled(input.action))
    ensures r.Failed? ==> Ob !in r.issues
  {
    if Filled(input.obj) && Filled(input.action) then
      Ok(PermissionFormValue(input.id, input.obj.value, input.action.value, input.createdAt, input.updatedAt))
    else
      Failed((if Filled(input.obj) then {} else {Object}) + (if Filled(input.action) then {} else {Action}))
  }

  /** A form value handed back to the form schema. */
  function AsFormInput(v: PermissionFormValue): PermissionFormInput {
    PermissionFormInput(v.id, Some(v.obj), Some(v.action), v.createdAt, v.updatedAt)
  }

  /** `permissionFormDefaultValue` (permission.schema.ts:41-44). */
  const PermissionFormDefault := PermissionFormValue(None, "", "", None, None)

  /** The default form value fails on both required fields (permission.schema.ts:30-31, 41-44). */
  lemma DefaultFailsBothFields()
    ensures ParsePermissionForm(AsFormInput(PermissionFormDefault)) == Failed({Object, Action})
  {
  }

  /** Whatever the create schema accepts, the update schema accepts too. */
  lemma CreateValidIsUpdateValid(input: ApiInput)
    requires ParsePermission(input).Ok?
    ensures ParsePermissionUpdate(input) == Ok(ApiUpdate(input.ob, input.action))
  {
  }
}
