/** The mapping between stored roles and role form values
    (app/resources/queries/roles/role.utils.ts). */
module RoleUtils {
  import opened SeqUtil
  import opened JsText
  import opened RoleIdentifier
  import opened RoleSchema

  /** A role as the API returns it (`RoleType`). The description may arrive as
      `null`, which is why the source writes `description || ''`. */
  datatype Role = Role(
    id: string, name: string, identifier: string, description: Option<string>,
    createdAt: string, updatedAt: string)

  /** `roleToFormValues` (role.utils.ts:7-16): every field is copied, and a missing
      or empty description becomes ''. */
  function RoleToFormValues(r: Role): (v: RoleFormValue)
    ensures v.id == Some(r.id) && v.name == r.name && v.identifier == Some(r.identifier)
    ensures v.createdAt == Some(r.createdAt) && v.updatedAt == Some(r.updatedAt)
    ensures v.description.Some?
    ensures r.description.Some? ==> v.description == r.description
    ensures r.description.None? ==> v.description == Some("")
  {
    RoleFormValue(Some(r.id), r.name, Some(r.identifier), Some(r.description.GetOr("")),
                  Some(r.createdAt), Some(r.updatedAt))
  }

  /** `formValuesToRoleData` (role.utils.ts:21-29): only name, identifier and
      description are kept, and a missing identifier or description becomes ''. */
  function FormValuesToRoleData(v: RoleFormValue): (d: RoleData)
    ensures d.name == v.name
    ensures d.identifier == (if v.identifier.Some? then v.identifier.value else "")
    ensures d.description == (if v.description.Some? then v.description.value else "")
  {
    RoleData(v.name, v.identifier.GetOr(""), v.description.GetOr(""))
  }

  /** Round trip: a role's form values map back to the role's own name, identifier
      and description (role.utils.ts:7-29). */
  lemma RoleRoundTrip(r: Role)
    ensures FormValuesToRoleData(RoleToFormValues(r)) == RoleData(r.name, r.identifier, r.description.GetOr(""))
  {
  }

  /** Form values that differ only in id or timestamps submit the same data. */
  lemma SubmitIgnoresIdAndTimestamps(v: RoleFormValue, w: RoleFormValue)
    requires v.name == w.name && v.identifier == w.identifier && v.description == w.description
    ensures FormValuesToRoleData(v) == FormValuesToRoleData(w)
  {
  }

  /** The edit form accepts a role the API schema accepted, leaves its values as
      they are, and submits the role's own name, identifier and description
      (role.utils.ts:7-29, role.schema.ts:38-60, role-form.tsx:74). */
  lemma EditFormAcceptsStoredRole(r: Role)
    requires r.name != [] && r.identifier != [] && IsIdentifier(r.identifier)
    ensures ParseRoleForm(AsFormInput(RoleToFormValues(r))) == Ok(RoleToFormValues(r))
    ensures FormValuesToRoleData(RoleToFormValues(r)) == RoleData(r.name, r.identifier, r.description.GetOr(""))
    ensures ParseRoleBase(RoleInput(Some(r.name), Some(r.identifier), Some(r.description.GetOr(""))))
            == Ok(RoleData(r.name, r.identifier, r.description.GetOr("")))
  {
    FormIdentifierKeepsIdentifier(r.identifier);
    ApiAcceptsNonEmptyIdentifier(r.identifier);
  }

  /** The form lets an empty identifier through (role.schema.ts:47-48), but the
      data it submits then has identifier '' and fails the API identifier rule
      (role.utils.ts:26, role.schema.ts:12-17). */
  lemma EmptyIdentifierPassesFormNotApi(v: RoleFormValue)
    requires v.name != [] && (v.identifier.None? || v.identifier == Some(""))
    ensures ParseRoleForm(AsFormInput(v)) == Ok(v)
    ensures var d := FormValuesToRoleData(v);
            ParseRoleBase(RoleInput(Some(d.name), Some(d.identifier), Some(d.description))) == Failed({Identifier})
  {
  }

  /** A name with no valid character at all generates the empty identifier, which
      the form accepts and the API schema rejects (role-form.tsx:25-29). */
  lemma PunctuationNameGeneratesEmpty()
    ensures GeneratedIdentifier("!") == ""
    ensures ParseRoleForm(RoleFormInput(None, Some("!"), Some(GeneratedIdentifier("!")), None, None, None)).Ok?
    ensures !ApiIdentifierOk(GeneratedIdentifier("!"))
  {
    PunctuationExample();
  }
}
