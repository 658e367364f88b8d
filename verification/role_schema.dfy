/** The role schemas (app/resources/queries/roles/role.schema.ts): the API
    schema with its lowercase-then-pattern identifier rule, its all-optional
    update variant, and the form schema whose identifier is optional,
    lowercased and trimmed, and checked only when non-empty. */
module RoleSchema {
  import opened SeqUtil
  import opened JsText
  import opened RoleIdentifier

  /** The fields a role schema can report an issue on. */
  datatype RoleField = Name | Identifier | Description

  /** The outcome of a schema's `safeParse`: the parsed value, or the set of
      fields with an issue (every failing field is reported, not just the first). */
  datatype Parsed<T> = Ok(value: T) | Failed(issues: set<RoleField>)

  /** A role record as the API sends and receives it (`CreateRoleData`). */
  datatype RoleData = RoleData(name: string, identifier: string, description: string)

  /** An object handed to the API schemas: a field may be missing. */
  datatype RoleInput = RoleInput(name: Option<string>, identifier: Option<string>, description: Option<string>)

  /** The partial record the update schema yields (`UpdateRoleData`). */
  datatype RoleUpdate = RoleUpdate(name: Option<string>, identifier: Option<string>, description: Option<string>)

  /** The values of the role form (`RoleFormValue`); only `name` is required. */
  datatype RoleFormValue = RoleFormValue(
    id: Option<string>, name: string, identifier: Option<string>,
    description: Option<string>, createdAt: Option<string>, updatedAt: Option<string>)

  /** An object handed to the form schema. */
  datatype RoleFormInput = RoleFormInput(
    id: Option<string>, name: Option<string>, identifier: Option<string>,
    description: Option<string>, createdAt: Option<string>, updatedAt: Option<string>)

  /** The API identifier rule: lowercase, then match `^[a-z0-9-_]+$`. */
  predicate ApiIdentifierOk(raw: string) {
    Lower(raw) != [] && IsIdentifier(Lower(raw))
  }

  /** The fields of `roleBaseSchema` that fail on `input` (role.schema.ts:10-19). */
  function BaseIssues(input: RoleInput): (issues: set<RoleField>)
    ensures Name in issues <==> input.name.None?
    ensures Description in issues <==> input.description.None?
    ensures Identifier in issues <==> (input.identifier.None? || !ApiIdentifierOk(input.identifier.value))
  {
    (if input.name.None? then {Name} else {})
    + (if input.identifier.None? || !ApiIdentifierOk(input.identifier.value) then {Identifier} else {})
    + (if input.description.None? then {Description} else {})
  }

  /** `roleBaseSchema.safeParse(input)`, which is also `createRoleSchema`
      (role.schema.ts:10-19, 24): all three fields are required strings and the
      identifier comes out lowercased. */
  function ParseRoleBase(input: RoleInput): (r: Parsed<RoleData>)
    ensures r.Ok? <==> input.name.Some? && input.description.Some?
                       && input.identifier.Some? && ApiIdentifierOk(input.identifier.value)
    ensures r.Ok? ==> r.value.name == input.name.value
                      && r.value.identifier == Lower(input.identifier.value)
                      && r.value.description == input.description.value
    ensures r.Ok? ==> r.value.identifier != [] && IsIdentifier(r.value.identifier)
    ensures r.Failed? ==> r.issues == BaseIssues(input) && r.issues != {}
  {
    var issues := BaseIssues(input);
    if issues == {} then
      Ok(RoleData(input.name.value, Lower(input.identifier.value), input.description.value))
    else
      Failed(issues)
  }

  /** `updateRoleSchema.safeParse(input)` (role.schema.ts:29): every field may be
      missing, but a present identifier obeys the same rule. */
  function ParseRoleUpdate(input: RoleInput): (r: Parsed<RoleUpdate>)
    ensures r.Ok? <==> input.identifier.None? || ApiIdentifierOk(input.identifier.value)
    ensures r.Failed? ==> r.issues == {Identifier}
    ensures r.Ok? ==> r.value.name == input.name && r.value.description == input.description
    ensures r.Ok? ==> r.value.identifier == (if input.identifier.Some? then Some(Lower(input.identifier.value)) else None)
  {
    if input.identifier.Some? && !ApiIdentifierOk(input.identifier.value) then
      Failed({Identifier})
    else
      Ok(RoleUpdate(input.name,
                    if input.identifier.Some? then Some(Lower(input.identifier.value)) else None,
                    input.description))
  }

  /** The form schema's identifier transform (role.schema.ts:44): a non-empty value
      is lowercased then trimmed; a missing or empty one is kept as it is. */
  function FormIdentifier(raw: Option<string>): (r: Option<string>)
    ensures raw.None? ==> r.None?
    ensures raw.Some? ==> r.Some? && |r.value| <= |raw.value|
    ensures raw.Some? && raw.value != [] ==> r == Some(Trim(Lower(raw.value)))
  {
    if raw.Some? && raw.value != [] then Some(Trim(Lower(raw.value))) else raw
  }

  /** The form schema's identifier refine (role.schema.ts:45-56): a missing or
      empty value passes, anything else must match `^[a-z0-9-_]+$`. */
  predicate FormIdentifierOk(v: Option<string>) {
    v.None? || v.value == [] || IsIdentifier(v.value)
  }

  /** The fields of `roleFormSchema` that fail on `input` (role.schema.ts:38-60). */
  function FormIssues(input: RoleFormInput): (issues: set<RoleField>)
    ensures Name in issues <==> input.name.None? || input.name.value == []
    ensures Identifier in issues <==> !FormIdentifierOk(FormIdentifier(input.identifier))
    ensures Description !in issues
  {
    (if input.name.None? || input.name.value == [] then {Name} else {})
    + (if !FormIdentifierOk(FormIdentifier(input.identifier)) then {Identifier} else {})
  }

  /** `roleFormSchema.safeParse(input)` (role.schema.ts:38-60): the name must be a
      non-empty string; id, description and timestamps are optional and copied;
      the identifier is transformed and refined. */
  function ParseRoleForm(input: RoleFormInput): (r: Parsed<RoleFormValue>)
    ensures r.Ok? <==> input.name.Some? && input.name.value != [] && FormIdentifierOk(FormIdentifier(input.identifier))
    ensures r.Ok? ==> r.value == RoleFormValue(input.id, input.name.value, FormIdentifier(input.identifier),
                                               input.description, input.createdAt, input.updatedAt)
    ensures r.Failed? ==> r.issues == FormIssues(input) && r.issues != {}
  {
    var issues := FormIssues(input);
    if issues == {} then
      Ok(RoleFormValue(input.id, input.name.value, FormIdentifier(input.identifier),
                       input.description, input.createdAt, input.updatedAt))
    else
      Failed(issues)
  }

  /** A form value handed back to the form schema, as the form does on submit. */
  function AsFormInput(v: RoleFormValue): RoleFormInput {
    RoleFormInput(v.id, Some(v.name), v.identifier, v.description, v.createdAt, v.updatedAt)
  }

  /** `roleFormDefaultValue` (role.schema.ts:67-71). */
  const RoleFormDefault := RoleFormValue(None, "", Some(""), Some(""), None, None)

  /** The default form value fails on the name alone (role.schema.ts:40, 67-71). */
  lemma DefaultFailsOnName()
    ensures ParseRoleForm(AsFormInput(RoleFormDefault)) == Failed({Name})
  {
  }

  /** A lowercase identifier without whitespace survives the form transform. */
  lemma {:induction false} FormIdentifierKeepsIdentifier(s: string)
    requires IsIdentifier(s)
    ensures FormIdentifier(Some(s)) == Some(s)
    ensures FormIdentifierOk(FormIdentifier(Some(s)))
  {
    assert forall i :: 0 <= i < |s| ==> !IsWhitespace(s[i]) && !IsAsciiUpper(s[i]);
    LowerNoUpper(s);
    if s != [] {
      TrimNoOuterWhitespace(s);
    }
  }

  /** Whatever the role form fills in, by generation or by typing, passes the form
      schema's identifier rule unchanged (role-form.tsx:29, 43; role.schema.ts:47-51). */
  lemma FormAcceptsFilledIdentifiers(name: string, raw: string)
    ensures FormIdentifier(Some(GeneratedIdentifier(name))) == Some(GeneratedIdentifier(name))
    ensures FormIdentifierOk(Some(GeneratedIdentifier(name)))
    ensures FormIdentifier(Some(TypedIdentifier(raw))) == Some(TypedIdentifier(raw))
    ensures FormIdentifierOk(Some(TypedIdentifier(raw)))
  {
    FormIdentifierKeepsIdentifier(GeneratedIdentifier(name));
    FormIdentifierKeepsIdentifier(TypedIdentifier(raw));
  }

  /** ...and a non-empty one also passes the API identifier rule unchanged
      (role.schema.ts:12-17). */
  lemma ApiAcceptsNonEmptyIdentifier(s: string)
    requires s != [] && IsIdentifier(s)
    ensures ApiIdentifierOk(s) && Lower(s) == s
  {
    assert forall i :: 0 <= i < |s| ==> !IsAsciiUpper(s[i]);
    LowerNoUpper(s);
  }

  /** A whitespace-only form identifier is trimmed to '' and then accepted
      (role.schema.ts:44, 48). */
  lemma BlankFormIdentifierAccepted(s: string)
    requires s != [] && IsBlank(s)
    ensures FormIdentifier(Some(s)) == Some("")
    ensures FormIdentifierOk(FormIdentifier(Some(s)))
  {
    assert IsBlank(Lower(s));
  }

  /** An identifier with a space between two valid characters is rejected by the
      form even though the outer spaces are trimmed (role.schema.ts:44, 50). */
  lemma InnerSpaceRejected(a: char, b: char)
    requires IsIdentifierChar(a) && IsIdentifierChar(b)
    ensures !FormIdentifierOk(FormIdentifier(Some([' ', a, ' ', b, ' '])))
  {
    var s := [' ', a, ' ', b, ' '];
    LowerOfSpaced(a, b);
    TrimOfSpaced(a, b);
    assert !IsIdentifierChar(Trim(s)[1]);
  }

  /** Lowering leaves a spaced pair of identifier characters as it is. */
  lemma LowerOfSpaced(a: char, b: char)
    requires IsIdentifierChar(a) && IsIdentifierChar(b)
    ensures Lower([' ', a, ' ', b, ' ']) == [' ', a, ' ', b, ' ']
  {
    LowerNoUpper([' ', a, ' ', b, ' ']);
  }

  /** Trimming strips exactly the outer spaces of a spaced pair. */
  lemma TrimOfSpaced(a: char, b: char)
    requires IsIdentifierChar(a) && IsIdentifierChar(b)
    ensures Trim([' ', a, ' ', b, ' ']) == [a, ' ', b]
  {
    assert IsBlank(" ") && NoOuterWhitespace([a, ' ', b]);
    TrimPadded(" ", [a, ' ', b], " ");
    assert " " + [a, ' ', b] + " " == [' ', a, ' ', b, ' '];
  }

  /** Whatever the create schema accepts, the update schema accepts too, with the
      same values (role.schema.ts:24, 29). */
  lemma CreateValidIsUpdateValid(input: RoleInput)
    requires ParseRoleBase(input).Ok?
    ensures ParseRoleUpdate(input).Ok?
    ensures var v := ParseRoleBase(input).value;
            ParseRoleUpdate(input).value == RoleUpdate(Some(v.name), Some(v.identifier), Some(v.description))
  {
  }

  /** Parsing is idempotent: a parsed record parses to itself. */
  lemma ParseRoleBaseIdempotent(input: RoleInput)
    requires ParseRoleBase(input).Ok?
    ensures var v := ParseRoleBase(input).value;
            ParseRoleBase(RoleInput(Some(v.name), Some(v.identifier), Some(v.description))) == Ok(v)
  {
    var v := ParseRoleBase(input).value;
    LowerIdempotent(input.identifier.value);
  }

  /** The form schema's output parses to itself again. */
  lemma ParseRoleFormIdempotent(input: RoleFormInput)
    requires ParseRoleForm(input).Ok?
    ensures ParseRoleForm(AsFormInput(ParseRoleForm(input).value)) == ParseRoleForm(input)
  {
    var id := FormIdentifier(input.identifier);
    if id.Some? && id.value != [] {
      FormIdentifierKeepsIdentifier(id.value);
    }
  }
}
