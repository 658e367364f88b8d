# custos-portal core, modelled in Dafny

custos-portal is the web admin console of the Custos role-based access control
service. Administrators use it to define roles and permissions, bind users and
service accounts to roles ("memberships"), and check what a user may do. Most of
the console is fetching and rendering. The logic that decides what the console
shows and sends is small, and it is spread over a score of components. This
project models that logic and proves properties of it:

- **Role identifiers.** They are generated from a role name or typed by hand
  (`role-form.tsx`). They are validated by the role schemas (`role.schema.ts`)
  and mapped between API records and form values (`role.utils.ts`).
- **Permission records.** Their schemas (`permission.schema.ts`) and their
  mapping to and from form values (`permission.utils.ts`).
- **The permission list views.** Grouping by object with sorted actions and a
  two-level search (`grid-view.tsx`, `sections.tsx`). A flat search with a row
  label (`list-view.tsx`). The resource/action option tree of the permission
  check (`permission-check.tsx`).
- **The permission-matrix card.** Its fixed action vocabulary, change keys and
  added/removed marks (`card.tsx`).
- **The editors and dialogs.**
  - The action-list editor (`new-permission-dialog.tsx`).
  - The role assignment dialog (`assign-role-user.tsx`).
  - The membership difference of a user's memberships tab
    (`users/detail/memberships/index.tsx`).
  - The new-membership dialog (`new-membership-dialog.tsx`).
  - The type-"delete" confirmation (`DeleteConfirmation.tsx`).
- **Navigation.** Breadcrumbs from a pathname (`breadcumb.helper.ts`,
  `users/detail/layout.tsx`). The sidebar's active entry (`SidebarPanel.tsx`,
  `SidebarPanelMin.tsx`). The pager (`Pagination.tsx`).

The JavaScript string built-ins the components use are modelled once, in
`js_text.dfy`:

- `toLowerCase` over ASCII letters;
- `trim` over the ECMAScript whitespace set;
- `includes`, `split` and `join` on one character;
- single-character `replace`;
- `Number.prototype.toString`.

Regular expressions become per-character predicates. `Array.prototype.sort` on
strings is an insertion sort proved sorted and a permutation (`string_order.dfy`,
code-point order). Network calls, their outcomes and `JSON.parse` are
parameters.

Components whose state changes in place are classes whose methods state the
whole new state: the role form fields, the action-list editor, the three
dialogs, the user layout's breadcrumb and the pager's row select. Loops in the
source are methods with loop invariants, proved against a specification
function:
- the grouping, sorting and filtering loops of the permission views;
- the `Map` that builds the permission-check options;
- the user layout's breadcrumb loop.

The rest is functions with lemmas.

The repository's behaviour description also speaks of computing, diffing and
committing a role's permission matrix. No file of the modelled code does that:
`card.tsx` only annotates cells from `changes` it is given. The model follows
the code and covers only that presenter half.

## Model

| member | source | states |
|---|---|---|
| RoleIdentifier.GeneratedIdentifier | app/components/crud-forms/role-form.tsx:25-29 | the identifier generated from a name (trim, lowercase, whitespace runs to '-', drop the rest) holds only `[a-z0-9-_]` characters |
| RoleIdentifier.TypedIdentifier | app/components/crud-forms/role-form.tsx:43 | the filtered typed identifier (lowercase, drop everything outside `[a-z0-9-_]`) holds only `[a-z0-9-_]` characters |
| RoleIdentifier.HyphenateNoWhitespace | app/components/crud-forms/role-form.tsx:28 | the whitespace-run replacement leaves a string without whitespace unchanged |
| RoleIdentifier.HyphenateRun | app/components/crud-forms/role-form.tsx:28 | a whole whitespace run between a whitespace-free prefix and the rest becomes exactly one '-' |
| RoleIdentifier.IdentifierUnchanged | app/components/crud-forms/role-form.tsx:25-43 | a string already in `[a-z0-9-_]*` passes through both transforms unchanged |
| RoleIdentifier.GeneratedIdempotent | app/components/crud-forms/role-form.tsx:25-29 | generating from a generated identifier changes nothing |
| RoleIdentifier.TypedIdempotent | app/components/crud-forms/role-form.tsx:43 | filtering a filtered identifier changes nothing |
| RoleIdentifier.TypedAppend | app/components/crud-forms/role-form.tsx:43 | the typed filter distributes over concatenation: f(a + b) == f(a) + f(b) |
| RoleIdentifier.TypeKeysFiltersWhole | app/components/crud-forms/role-form.tsx:43-47 | filtering the field after every keystroke gives the filter of the whole typed text |
| RoleIdentifier.TypingIntoEmptyField | app/components/crud-forms/role-form.test.tsx:102-112 | typing keys one by one into the empty field leaves the filter of the keys |
| RoleIdentifier.TypedLowered | app/components/crud-forms/role-form.test.tsx:323-371 | text whose lowercase is a valid identifier is only lowercased by the filter |
| RoleIdentifier.TypedDropped | app/components/crud-forms/role-form.test.tsx:164-296 | text with no valid character even after lowercasing filters to '' |
| RoleIdentifier.TypedExampleDrops | app/components/crud-forms/role-form.test.tsx:374-384 | 'A b!' filters to 'ab': case lowered, the space and the punctuation deleted |
| RoleIdentifier.TypedExampleKeeps | app/components/crud-forms/role-form.tsx:43 | 'R-_9' filters to 'r-_9': hyphen, underscore and digit kept |
| RoleIdentifier.TypedExampleUpperHyphen | app/components/crud-forms/role-form.test.tsx:324-334 | 'ADMIN-ROLE' filters to 'admin-role' |
| RoleIdentifier.TypedExampleMixedCase | app/components/crud-forms/role-form.test.tsx:336-346 | 'AdminRole' filters to 'adminrole' |
| RoleIdentifier.TypedExampleUpperDigits | app/components/crud-forms/role-form.test.tsx:348-358 | 'ROLE123' filters to 'role123' |
| RoleIdentifier.TypedExampleUpperUnderscore | app/components/crud-forms/role-form.test.tsx:360-371 | 'ADMIN-ROLE_TEST' filters to 'admin-role_test' |
| RoleIdentifier.GeneratedExample | app/components/crud-forms/role-form.tsx:25-29 | ' A b' generates 'a-b': outer whitespace trimmed, the inner space hyphenated |
| RoleIdentifier.PunctuationExample | app/components/crud-forms/role-form.tsx:25-29 | a name made of the single mark '!' generates the empty identifier |
| RoleIdentifier.FormTitle | app/components/crud-forms/role-form.tsx:68 | the title is 'Edit Role' exactly when the default id is present and non-empty, 'New Role' otherwise |
| RoleIdentifier.RoleFormFields.constructor | app/components/crud-forms/role-form.tsx:20-32 | on mount generation is on, and a non-empty default name replaces the default identifier by the generated one |
| RoleIdentifier.RoleFormFields.ChangeName | app/components/crud-forms/role-form.tsx:23-32 | a name change regenerates the identifier only while generating and with a non-empty name; the flag is kept |
| RoleIdentifier.RoleFormFields.ChangeIdentifier | app/components/crud-forms/role-form.tsx:35-48 | the intended manual edit (see ## Findings): generation turns off and the filtered typed value is stored, so the identifier is always in `[a-z0-9-_]*`; the name is kept |
| RoleIdentifier.RoleFormFields.ChangeIdentifierAsWritten | app/components/form/form-input.tsx:58-64 | the edit as the handlers run: React Hook Form stores the raw text before the filter rewrites the input; generation turns off, the name is kept |
| RoleIdentifier.AsWrittenAgreesIffValid | app/components/crud-forms/role-form.tsx:35-48 | the stored raw text equals the filtered text exactly when it is already an identifier |
| RoleIdentifier.AsWrittenStoresRawText | app/components/form/form-input.tsx:58-64 | typing 'A b!' as written stores 'A b!', not an identifier, where the filter gives 'ab' |
| RoleIdentifier.ManualEditSticks | app/components/crud-forms/role-form.tsx:20-36 | after a manual edit a later name change leaves the identifier alone; nothing turns generation back on |
| RoleSchema.BaseIssues | app/resources/queries/roles/role.schema.ts:10-19 | a field is reported exactly when it is missing, or for the identifier when its lowercase is empty or not `[a-z0-9-_]+` |
| RoleSchema.ParseRoleBase | app/resources/queries/roles/role.schema.ts:10-24 | parsing succeeds iff all three fields are present and the lowered identifier matches `^[a-z0-9-_]+$`; the output carries the lowered identifier; a failure lists exactly the failing fields |
| RoleSchema.ParseRoleUpdate | app/resources/queries/roles/role.schema.ts:29 | every field may be missing; a present identifier must pass the same rule and comes out lowered |
| RoleSchema.FormIdentifier | app/resources/queries/roles/role.schema.ts:43-44 | a missing or empty form identifier is kept; a non-empty one becomes its lowercase, trimmed |
| RoleSchema.FormIssues | app/resources/queries/roles/role.schema.ts:38-60 | the form reports the name exactly when missing or empty and the identifier exactly when it fails the refine; never the description |
| RoleSchema.ParseRoleForm | app/resources/queries/roles/role.schema.ts:38-60 | the form accepts iff the name is non-empty and the transformed identifier is missing, empty or `[a-z0-9-_]*`; optional fields are copied |
| RoleSchema.DefaultFailsOnName | app/resources/queries/roles/role.schema.ts:40-71 | the default form value fails on the name alone |
| RoleSchema.FormIdentifierKeepsIdentifier | app/resources/queries/roles/role.schema.ts:44-51 | an identifier in `[a-z0-9-_]*` survives the form transform and passes its refine |
| RoleSchema.FormAcceptsFilledIdentifiers | app/resources/queries/roles/role.schema.ts:47-51 | whatever the role form generates or filters passes the form's identifier rule unchanged |
| RoleSchema.ApiAcceptsNonEmptyIdentifier | app/resources/queries/roles/role.schema.ts:12-17 | a non-empty `[a-z0-9-_]*` identifier passes the API rule and is its own lowercase |
| RoleSchema.BlankFormIdentifierAccepted | app/resources/queries/roles/role.schema.ts:44-48 | a whitespace-only form identifier is trimmed to '' and accepted |
| RoleSchema.InnerSpaceRejected | app/resources/queries/roles/role.schema.ts:44-50 | a space between two valid characters is rejected even though the outer spaces are trimmed |
| RoleSchema.CreateValidIsUpdateValid | app/resources/queries/roles/role.schema.ts:24-29 | whatever the create schema accepts the update schema accepts with the same values |
| RoleSchema.ParseRoleBaseIdempotent | app/resources/queries/roles/role.schema.ts:10-19 | a parsed role parses to itself |
| RoleSchema.ParseRoleFormIdempotent | app/resources/queries/roles/role.schema.ts:38-60 | a parsed form value parses to itself |
| RoleUtils.RoleToFormValues | app/resources/queries/roles/role.utils.ts:7-16 | every role field is copied; a missing or empty description becomes '' |
| RoleUtils.FormValuesToRoleData | app/resources/queries/roles/role.utils.ts:21-29 | only name, identifier and description are kept; a missing identifier or description becomes '' |
| RoleUtils.RoleRoundTrip | app/resources/queries/roles/role.utils.ts:7-29 | mapping a role to form values and back gives its name, identifier and description (or '') |
| RoleUtils.SubmitIgnoresIdAndTimestamps | app/resources/queries/roles/role.utils.ts:21-29 | form values differing only in id or timestamps submit the same data |
| RoleUtils.EditFormAcceptsStoredRole | app/resources/queries/roles/role.utils.ts:7-29 | a role with a non-empty name and valid identifier is accepted unchanged by the form, and the submitted data passes the API schema unchanged |
| RoleUtils.EmptyIdentifierPassesFormNotApi | app/resources/queries/roles/role.schema.ts:47-48 | a missing or empty identifier passes the form but the submitted '' fails the API identifier rule |
| RoleUtils.PunctuationNameGeneratesEmpty | app/components/crud-forms/role-form.tsx:25-29 | the name '!' generates '', which the form accepts and the API rule rejects |
| PermissionSchema.ParsePermission | app/resources/queries/permissions/permission.schema.ts:10-18 | accepts iff `ob` and `action` are present and non-empty, copying both; a failure names exactly the failing fields |
| PermissionSchema.ParsePermissionUpdate | app/resources/queries/permissions/permission.schema.ts:23 | both fields may be missing; a present one must be non-empty |
| PermissionSchema.ParsePermissionForm | app/resources/queries/permissions/permission.schema.ts:28-34 | accepts iff object and action are non-empty; id and timestamps optional and copied |
| PermissionSchema.DefaultFailsBothFields | app/resources/queries/permissions/permission.schema.ts:30-44 | the default form value fails on both object and action |
| PermissionSchema.CreateValidIsUpdateValid | app/resources/queries/permissions/permission.schema.ts:18-23 | whatever the create schema accepts the update schema accepts unchanged |
| PermissionUtils.PermissionToFormValues | app/resources/queries/permissions/permission.utils.ts:7-15 | id, object, action and timestamps are copied unchanged |
| PermissionUtils.FormValuesToPermissionData | app/resources/queries/permissions/permission.utils.ts:20-27 | exactly object and action are kept, unchanged |
| PermissionUtils.PermissionRoundTrip | app/resources/queries/permissions/permission.utils.ts:7-27 | to form values and back gives the permission's object and action |
| PermissionUtils.EditFormAcceptsStoredPermission | app/resources/queries/permissions/permission.utils.ts:7-15 | a stored permission with non-empty fields is accepted by the form as it is |
| PermissionUtils.ValidFormSubmitsTypedValues | app/resources/queries/permissions/permission.utils.ts:20-27 | validating then mapping any valid form input gives exactly the typed object and action |
| PermissionUtils.AsObject | app/resources/queries/permissions/permission.utils.ts:23-26 | the mapped object has exactly the keys `object` and `action`, with the form's values |
| PermissionUtils.ApiFields | app/resources/queries/permissions/permission.schema.ts:10-13 | the API schema reads the keys `ob` and `action`, missing where the object lacks them |
| PermissionUtils.MappedDataLacksOb | app/resources/queries/permissions/permission.utils.ts:20-27 | for every form value, the object formValuesToPermissionData builds, read by the API schema, fails on `ob`, and on `action` exactly when the action is empty |
| NewPermissionDialog.Sanitize | app/components/permissions/new-permission-dialog.tsx:48 | the result holds exactly the input's `[a-zA-Z0-9._]` characters, in order and case |
| NewPermissionDialog.SanitizeKeepsSanitized | app/components/permissions/new-permission-dialog.tsx:48 | a value already in `[a-zA-Z0-9._]*` is unchanged |
| NewPermissionDialog.SanitizeIdempotent | app/components/permissions/new-permission-dialog.tsx:48 | sanitizing twice is sanitizing once |
| NewPermissionDialog.SanitizeAppend | app/components/permissions/new-permission-dialog.tsx:48 | sanitizing distributes over concatenation |
| NewPermissionDialog.AddedActionsAsWritten | app/components/permissions/new-permission-dialog.tsx:75-82 | the list is unchanged only when the action is listed and non-empty; otherwise the action is appended |
| NewPermissionDialog.AsWrittenAddsEmptyTwice | app/components/permissions/new-permission-dialog.tsx:76-80 | adding '' twice as written lists '' twice |
| NewPermissionDialog.AddedActions | app/components/permissions/new-permission-dialog.tsx:75-82 | a listed action leaves the list unchanged, any other is appended; the action is then listed |
| NewPermissionDialog.AddedActionsNoDup | app/components/permissions/new-permission-dialog.tsx:75-82 | adding keeps a duplicate-free list duplicate-free |
| NewPermissionDialog.AsWrittenAgreesOnNonEmpty | app/components/permissions/new-permission-dialog.tsx:75-82 | the written and the intended add agree for every non-empty action |
| NewPermissionDialog.RemoveListedAction | app/components/permissions/new-permission-dialog.tsx:84-86 | removing a listed action cuts out its one position, keeping the others in order |
| NewPermissionDialog.CreateRequests | app/components/permissions/new-permission-dialog.tsx:53-56 | one create `{object: resource, action}` per listed action, in list order |
| NewPermissionDialog.NewPermissionForm.constructor | app/components/permissions/new-permission-dialog.tsx:36-38 | resource, action and list start empty |
| NewPermissionDialog.NewPermissionForm.TypeResource | app/components/permissions/new-permission-dialog.tsx:104 | the resource becomes the sanitized input; nothing else changes |
| NewPermissionDialog.NewPermissionForm.TypeAction | app/components/permissions/new-permission-dialog.tsx:116 | the action becomes the sanitized input; nothing else changes |
| NewPermissionDialog.NewPermissionForm.AddAction | app/components/permissions/new-permission-dialog.tsx:75-82 | the intended add (see ## Findings, lines 76-80): the list becomes AddedActions of the old list; the field is cleared only when the action was appended; the list stays duplicate-free |
| NewPermissionDialog.NewPermissionForm.RemoveAction | app/components/permissions/new-permission-dialog.tsx:84-86 | the action leaves, the rest stay in order; a listed action shortens the list by one |
| NewPermissionDialog.NewPermissionForm.Submit | app/components/permissions/new-permission-dialog.tsx:50-73 | without a resource or actions nothing is sent or changed; otherwise one create per action is sent, and all fields reset exactly when all succeed |
| NewPermissionDialog.SaveEnabledIsSubmitGuard | app/components/permissions/new-permission-dialog.tsx:153 | the Save button is enabled while idle exactly when the submit guard passes (with line 51) |
| PermissionCard.VocabularyKeys | app/components/permissions/card.tsx:18-23 | the vocabulary's keys, one per entry, in order |
| PermissionCard.VocabularyShape | app/components/permissions/card.tsx:18-23 | the keys are exactly read, create, update, delete, distinct and ':'-free; each caption is its key with the first letter upper-cased |
| PermissionCard.ChangeKey | app/components/permissions/card.tsx:43 | the key is the object, ':', then the action |
| PermissionCard.ChangeKeyInjective | app/components/permissions/card.tsx:43 | for objects without ':' the key determines object and action |
| PermissionCard.ChangeKeyCollision | app/components/permissions/card.tsx:43 | an object with ':' can share its key with another cell ('a:b','c' and 'a','b:c') |
| PermissionCard.GetChangeStatus | app/components/permissions/card.tsx:41-47 | no changes gives no status; 'added' iff the key is in `added`; 'removed' iff it is only in `removed` |
| PermissionCard.AnyChanged | app/components/permissions/card.tsx:49 | true iff some listed action has a status |
| PermissionCard.HighlightIffVocabularyKeyChanged | app/components/permissions/card.tsx:49 | the card is highlighted iff the key of one of its four actions was added or removed |
| PermissionCard.OutsideVocabularyIgnored | app/components/permissions/card.tsx:49 | changes to an action outside the vocabulary never highlight the card |
| PermissionCard.ActionCheckboxEvent | app/components/permissions/card.tsx:37-78 | an action checkbox forwards object and action, and true only for `checked === true` |
| PermissionCard.HeaderCheckboxEvent | app/components/permissions/card.tsx:33-55 | the header checkbox forwards object and checked unchanged |
| PermissionCard.Cells | app/components/permissions/card.tsx:62-91 | one row per vocabulary entry, in order, showing `hasPermission(object, key)` and its status |
| PermissionCard.HighlightIffSomeCellMarked | app/components/permissions/card.tsx:49-91 | the card is highlighted iff one of its rows shows a mark |
| PermissionGroups.ActionsOf | app/components/permissions/grid-view.tsx:20-25 | an object's actions in item order, duplicates kept, never more than the items |
| PermissionGroups.ActionsOfHasItem | app/components/permissions/grid-view.tsx:20-25 | every item's action is among its object's actions |
| PermissionGroups.ActionsOfAbsent | app/components/permissions/grid-view.tsx:20-25 | an object no item names has no actions |
| PermissionGroups.Collected | app/components/permissions/grid-view.tsx:18-25 | the unsorted grouping has a key for exactly the items' objects |
| PermissionGroups.Grouped | app/components/permissions/grid-view.tsx:17-33 | one key per distinct object; each group is sorted and a permutation of that object's actions |
| PermissionGroups.ItemListedUnderItsObject | app/components/permissions/sections.tsx:18-23 | every item's action is listed under its object |
| PermissionGroups.GroupSizesSumToItemCount | app/components/permissions/grid-view.tsx:20-25 | listing each group once, the group sizes add up to the number of items |
| PermissionGroups.CollectActions | app/components/permissions/grid-view.tsx:18-25 | the grouping loop returns exactly the unsorted grouping |
| PermissionGroups.SortGroups | app/components/permissions/grid-view.tsx:27-30 | the sort loop keeps the keys and sorts every group |
| PermissionGroups.GroupByObject | app/components/permissions/sections.tsx:15-31 | group then sort returns exactly the grouping |
| PermissionGroups.AsWrittenThrowsOnConstructor | app/components/permissions/grid-view.tsx:21-24 | as written, one permission on object 'constructor' makes the grouping throw |
| PermissionGroups.AsWrittenAgreesOtherwise | app/components/permissions/sections.tsx:19-22 | away from inherited member names the loop as written is the intended grouping |
| PermissionGroups.FilteredEntry | app/components/permissions/grid-view.tsx:45-53 | a matching object keeps all its actions; otherwise only its matching actions, and it is dropped when none match |
| PermissionGroups.FilteredGroups | app/components/permissions/grid-view.tsx:35-58 | a blank query changes nothing; the filtered keys are among the grouped keys |
| PermissionGroups.FilterGroups | app/components/permissions/sections.tsx:33-56 | the filter loop returns exactly the filtered grouping |
| PermissionGroups.FilteredIsSubsequence | app/components/permissions/grid-view.tsx:43-54 | each kept group is a subsequence of its group |
| PermissionGroups.FilterByObjectThenAction | app/components/permissions/sections.tsx:38-52 | for a non-blank query: a matching object keeps its group; another is kept iff one of its actions matches, keeping exactly the matching ones |
| PermissionGroups.FilteredStaysSorted | app/components/permissions/grid-view.tsx:27-54 | every shown group is still sorted after filtering |
| PermissionGroups.GridView | app/components/permissions/grid-view.tsx:17-58 | the grid shows the filtered grouping of the items, none when the items are missing |
| PermissionGroups.SectionsView | app/components/permissions/sections.tsx:15-67 | the sections show the filtered grouping, count the input, and show the empty state iff there is no permission |
| StringOrder.Sort | app/components/permissions/grid-view.tsx:27-29 | the sorted list is sorted, of the same length, and a permutation of the input |
| StringOrder.SortedUnique | app/components/permissions/sections.tsx:25-28 | two sorted lists with the same elements are equal, so the sort result is determined |
| StringOrder.SortSorted | app/components/permissions/sections.tsx:25-28 | sorting a sorted list changes nothing |
| ListView.FilterList | app/components/permissions/list-view.tsx:18-29 | a blank query keeps every item; otherwise an item is kept iff its lowered object or action contains the lowered query; every copy of a kept item stays, and the result is a subsequence of the items |
| ListView.FilterIgnoresQueryCase | app/components/permissions/list-view.tsx:25-26 | the query's case does not change the result |
| ListView.PaddedQueryNeedsSpace | app/components/permissions/list-view.tsx:19-26 | a non-blank query with a leading space only finds rows containing a space: the match uses the untrimmed query |
| ListView.OrDash | app/components/permissions/list-view.tsx:41 | an empty field shows as '-', any other as itself |
| ListView.RowLabel | app/components/permissions/list-view.tsx:41 | the label is the shown object, '.', then the shown action |
| ListView.RowLabelDetermines | app/components/permissions/list-view.tsx:41 | for objects without '.', equal labels mean equal shown objects and actions |
| ListView.EmptyFieldLooksLikeDash | app/components/permissions/list-view.tsx:41 | an empty field and a literal '-' give the same label |
| PermissionCheck.OptionsSpec | app/components/users/permission-check.tsx:150-171 | one option per distinct object in first-appearance order, label equal to value, with its distinct actions in first-appearance order |
| PermissionCheck.OptionsSpecComplete | app/components/users/permission-check.tsx:151-170 | every item's object has an option listing that item's action |
| PermissionCheck.OptionsSpecSound | app/components/users/permission-check.tsx:165-168 | every listed child has label equal to value and comes from an item on that option's object |
| PermissionCheck.OptionsSpecNoDup | app/components/users/permission-check.tsx:154-158 | no object is offered twice and no action twice under an object |
| PermissionCheck.BuildOptions | app/components/users/permission-check.tsx:150-171 | the `Map`-filling loop returns exactly the specified options, none when permissions are missing |
| PermissionCheck.FindOption | app/components/users/permission-check.tsx:91 | the first option with the value, none iff there is none |
| PermissionCheck.OfferedActions | app/components/users/permission-check.tsx:85-94 | no actions without a resource or without a matching option; otherwise that option's children |
| PermissionCheck.OfferedActionsOfObject | app/components/users/permission-check.tsx:85-94 | choosing an object offers exactly its distinct actions; an unknown one offers none |
| PermissionCheck.AutoSelect | app/components/users/permission-check.tsx:96-100 | a single offered action becomes the choice; otherwise the choice is kept |
| PermissionCheck.SingleActionSelected | app/components/users/permission-check.tsx:96-100 | when every permission on a resource has the same action, choosing the resource selects that action |
| PermissionCheck.SearchQueryShape | app/components/users/permission-check.tsx:145-147 | a search that runs has a token and a trimmed query of at least four characters with no outer whitespace |
| PermissionCheck.ValidateCheckForm | app/components/users/permission-check.tsx:44-48 | valid iff resource, action and domain are all non-empty; every empty field is reported |
| PermissionCheck.Payload | app/components/users/permission-check.tsx:179-183 | resource and action unchanged; the domain is the entered one, or '*' when empty |
| PermissionCheck.SubmittedPayloadIsEntered | app/components/users/permission-check.tsx:179-183 | validated values are sent exactly as entered: the '*' fallback is never reached (with lines 44-48) |
| PermissionCheck.DefaultFormIssues | app/components/users/permission-check.tsx:197-200 | the default form fails on resource and action only |
| PermissionCheck.GetErrorMessage | app/components/users/permission-check.tsx:50-61 | a non-Error gives the fixed text; a message that is not JSON is returned; JSON with a non-empty `error` gives that text, otherwise the message |
| PermissionCheck.AfterSubmit | app/components/users/permission-check.tsx:175-191 | a response is stored as the result with no error; a rejection stores only the error message |
| PermissionCheck.ShownDomain | app/components/users/permission-check.tsx:274-283 | the shown domain is its first eight characters (all of it when shorter) |
| PermissionCheck.ShownDomainCut | app/components/users/permission-check.tsx:274-283 | the domain is shown whole exactly when there is no tooltip |
| PermissionCheck.ShownReason | app/components/users/permission-check.tsx:288 | the reason is never shown empty; a non-empty reason is shown as is |
| PermissionCheck.StatusBadge | app/components/users/permission-check.tsx:252-260 | 'Allowed' iff allowed, 'Denied' iff not |
| AssignRoleDialog.Toggled | app/components/memberhips/assign-role-user.tsx:72-76 | the id is selected afterwards iff it was not before; other ids keep their membership; an absent id is appended |
| AssignRoleDialog.ToggledNoDup | app/components/memberhips/assign-role-user.tsx:72-76 | toggling keeps the selection duplicate-free |
| AssignRoleDialog.ToggleAbsentTwice | app/components/memberhips/assign-role-user.tsx:72-76 | toggling an unselected id twice restores the selection exactly |
| AssignRoleDialog.TogglePresentTwice | app/components/memberhips/assign-role-user.tsx:72-76 | toggling a selected id twice keeps the same ids but moves it to the end |
| AssignRoleDialog.AvailableRoles | app/components/memberhips/assign-role-user.tsx:62-65 | the roles whose id is not already assigned, each with as many copies as in the role list, as a subsequence of it |
| AssignRoleDialog.SelectedRoles | app/components/memberhips/assign-role-user.tsx:67-70 | the roles whose id is selected, each with as many copies as in the role list, as a subsequence of it |
| AssignRoleDialog.SelectedRolesInRolesOrder | app/components/memberhips/assign-role-user.tsx:67-70 | selecting b then a still yields [a, b] |
| AssignRoleDialog.AssignRoleForm.constructor | app/components/memberhips/assign-role-user.tsx:48-53 | every field starts at its initial value |
| AssignRoleDialog.AssignRoleForm.Toggle | app/components/memberhips/assign-role-user.tsx:72-76 | the selection becomes its toggle and stays duplicate-free; nothing else changes |
| AssignRoleDialog.AssignRoleForm.Close | app/components/memberhips/assign-role-user.tsx:78-85 | every field returns to its initial value |
| AssignRoleDialog.AssignRoleForm.OpenChange | app/components/memberhips/assign-role-user.tsx:117 | a close request resets the dialog; an open request changes nothing |
| AssignRoleDialog.AssignRoleForm.Open | app/components/memberhips/assign-role-user.tsx:100-105 | opens with the user and the assigned ids (none when missing), an empty selection, search and saving kept |
| AssignRoleDialog.AssignRoleForm.Save | app/components/memberhips/assign-role-user.tsx:87-98 | nothing without a user or selection; without `onConfirm` only a close; otherwise one call with user, selection and selected roles, then a close, or still saving when the call rejects |
| AssignRoleDialog.ToggleOfferedKeepsUnassigned | app/components/memberhips/assign-role-user.tsx:62-76 | toggling offered roles never selects an already assigned id |
| MembershipsPage.ExistingRoleIds | app/routes/main/users/detail/memberships/index.tsx:157-160 | exactly the role ids of the loaded memberships, none while unloaded |
| MembershipsPage.ExistingRoleIdList | app/routes/main/users/detail/memberships/index.tsx:205 | the same ids as a duplicate-free list |
| MembershipsPage.NewRoleIds | app/routes/main/users/detail/memberships/index.tsx:224 | the confirmed ids not held on the loaded page of memberships, each with as many copies as confirmed, as a subsequence of the confirmation |
| MembershipsPage.NewRoleIdsNoDup | app/routes/main/users/detail/memberships/index.tsx:224 | a duplicate-free confirmation gives duplicate-free new ids |
| MembershipsPage.OnConfirm | app/routes/main/users/detail/memberships/index.tsx:223-239 | nothing new: only the info message; otherwise one create per new id with domain '*', and success and refetch iff all resolve |
| MembershipsPage.NoCreateForHeldRole | app/routes/main/users/detail/memberships/index.tsx:224-235 | every create is for a confirmed role not held on the loaded page of memberships |
| MembershipsPage.DialogOffersOnlyUnheldRoles | app/routes/main/users/detail/memberships/index.tsx:203-206 | the dialog opened with the ids held on the loaded page offers none of those roles |
| MembershipsPage.OfferedSelectionIsAllNew | app/routes/main/users/detail/memberships/index.tsx:203-224 | a confirmation of offered roles loses nothing to the filter by roles held on the loaded page |
| NewMembershipDialog.FullName | app/components/memberhips/new-membership-dialog.tsx:102 | a slice of "first last" with only whitespace cut around it and none at its ends; empty iff both parts are blank; for clean parts exactly "first last", or the part that is there |
| NewMembershipDialog.SearchText | app/components/memberhips/new-membership-dialog.tsx:103 | a slice of "name email" with only whitespace cut around it and none at its ends; for a clean email exactly "name email", or the part that is there |
| NewMembershipDialog.Caption | app/components/memberhips/new-membership-dialog.tsx:108 | the full name when non-empty, else the email |
| NewMembershipDialog.NamelessAccountShowsEmail | app/components/memberhips/new-membership-dialog.tsx:102-108 | an account without name parts is labelled by its email |
| NewMembershipDialog.AccountOptions | app/components/memberhips/new-membership-dialog.tsx:99-114 | one option per account, in order, id and value the account id, with its caption and search text |
| NewMembershipDialog.SelectedAccounts | app/components/memberhips/new-membership-dialog.tsx:94-97 | users in user mode, service accounts otherwise, none while unloaded |
| NewMembershipDialog.SelectedOption | app/components/memberhips/new-membership-dialog.tsx:116-119 | the first option whose value is the selection, none iff there is none |
| NewMembershipDialog.ChosenAccountIsSelected | app/components/memberhips/new-membership-dialog.tsx:205-208 | choosing a listed account selects the first account with that id (with lines 116-119) |
| NewMembershipDialog.UsersQuery | app/components/memberhips/new-membership-dialog.tsx:71 | the user search term is sent iff in user mode with a non-empty debounced query |
| NewMembershipDialog.OneListQuery | app/components/memberhips/new-membership-dialog.tsx:64-73 | while open exactly one list query runs, none while closed |
| NewMembershipDialog.LoadingStatesExclusive | app/components/memberhips/new-membership-dialog.tsx:121-123 | the initial-loading and searching states never hold together |
| NewMembershipDialog.NewMembershipForm.constructor | app/components/memberhips/new-membership-dialog.tsx:51-57 | closed, with the given role and account type, everything else empty |
| NewMembershipDialog.NewMembershipForm.Close | app/components/memberhips/new-membership-dialog.tsx:125-131 | closed with selection, domain, search text and combobox cleared; role and type kept |
| NewMembershipDialog.NewMembershipForm.Open | app/components/memberhips/new-membership-dialog.tsx:136-140 | sets role and type and opens; nothing else changes |
| NewMembershipDialog.NewMembershipForm.Choose | app/components/memberhips/new-membership-dialog.tsx:205-208 | the option's value becomes the selection and the combobox closes |
| NewMembershipDialog.NewMembershipForm.Submit | app/components/memberhips/new-membership-dialog.tsx:78-92 | nothing without a selection; otherwise sends role, selected account and the domain or '*', closing and clearing on success |
| Breadcrumbs.Parts | app/utils/helpers/breadcumb.helper.ts:55 | the segments are '/'-free and a subsequence of the '/'-split, and each non-empty piece of the split occurs as often as in the split |
| Breadcrumbs.LinkExtends | app/utils/helpers/breadcumb.helper.ts:77 | each link is the previous link plus '/' and the next segment, so it extends it |
| Breadcrumbs.PartsOfCanonicalPath | app/utils/helpers/breadcumb.helper.ts:55 | a path '/' + segments joined by '/' splits back into exactly those segments |
| Breadcrumbs.LastLinkIsPath | app/utils/helpers/breadcumb.helper.ts:77 | on such a path the last item links to the path itself |
| Breadcrumbs.CapitalizeWordsSpec | app/utils/helpers/breadcumb.helper.ts:90-93 | capitalizing word by word upper-cases exactly the characters at the start or after a space, keeping the length |
| Breadcrumbs.FormatPathPart | app/utils/helpers/breadcumb.helper.ts:88-94 | same length; '-' becomes ' ' and each word's first character is upper-cased; no '-' remains |
| Breadcrumbs.GetResourceName | app/utils/helpers/breadcumb.helper.ts:106-126 | '' without data; the trimmed full name with both name parts; else the trimmed non-empty name; else the trimmed role name; else ''; never outer whitespace |
| Breadcrumbs.BlankRoleNameShowsEmpty | app/utils/helpers/breadcumb.helper.ts:115-116 | a whitespace-only name shows as '' |
| Breadcrumbs.MatchedParam | app/utils/helpers/breadcumb.helper.ts:58 | the key of the first param whose value is the segment, none iff none is |
| Breadcrumbs.SegmentCaption | app/utils/helpers/breadcumb.helper.ts:58-73 | an unmatched segment is formatted; a matched one shows 'Loading…', else 'Unknown', else the resource name |
| Breadcrumbs.GenerateBreadcrumbs | app/utils/helpers/breadcumb.helper.ts:39-80 | one item per segment, in order, with its caption and its prefix link |
| Breadcrumbs.UnmatchedSegmentHasNoHyphen | app/utils/helpers/breadcumb.helper.ts:60-94 | a segment no param names has a caption without '-' |
| Breadcrumbs.SameLinksAsHelper | app/routes/main/users/detail/layout.tsx:57 | the helper links item i to the same prefix as the layout |
| Breadcrumbs.UserBreadcrumb | app/routes/main/users/detail/layout.tsx:47-62 | the loop yields one item per segment: the email (or '') for the id segment, the raw segment otherwise, with the prefix link |
| Breadcrumbs.UserDetailBreadcrumb.constructor | app/routes/main/users/detail/layout.tsx:24 | the breadcrumb starts empty |
| Breadcrumbs.UserDetailBreadcrumb.Refresh | app/routes/main/users/detail/layout.tsx:64-68 | rebuilt as above only when the user is loaded, otherwise kept |
| Sidebar.Slug | app/components/misc/Sidebar/SidebarPanel.tsx:32 | the split/join equals replacing each ' ' by '-' then lowercasing; same length, no space |
| Sidebar.PanelEntries | app/components/misc/Sidebar/SidebarPanel.tsx:57-75 | one entry per item, highlighted and link-active iff the path equals it or contains its slug |
| Sidebar.MinEntries | app/components/misc/Sidebar/SidebarPanelMin.tsx:46-65 | one entry per item, active iff the path equals it or contains its slug, tooltip the title |
| Sidebar.ToggleRequest | app/components/misc/Sidebar/SidebarPanel.tsx:49 | the toggle asks for the opposite expansion |
| Sidebar.PanelsAgree | app/components/misc/Sidebar/SidebarPanel.tsx:62-69 | list item and link agree, and both panels mark the same items |
| Sidebar.EmptyTitleAlwaysActive | app/components/misc/Sidebar/SidebarPanel.tsx:32 | the slug is empty iff the title is, and an empty title is active on every path |
| Sidebar.SlugIgnoresTitleCase | app/components/misc/Sidebar/SidebarPanelMin.tsx:27 | lowering the title first changes nothing |
| Sidebar.SlugInPathActivates | app/components/misc/Sidebar/SidebarPanelMin.tsx:55 | any path containing the slug activates the item |
| Sidebar.UpperCasePathMatchesOnlyExactly | app/components/misc/Sidebar/SidebarPanelMin.tsx:27 | the path is not lowered: without lower-case letters it never contains a lettered slug, so only the exact path matches |
| Pagination.Pages | app/components/misc/Pagination.tsx:25 | pages 1 to total_pages in order, none when not positive |
| Pagination.PagesAre | app/components/misc/Pagination.tsx:25-81 | the listed pages are exactly 1..total, strictly ascending |
| Pagination.PrevTarget | app/components/misc/Pagination.tsx:59-68 | shown iff the current page is above 1, going one page back |
| Pagination.NextTargetAsWritten | app/components/misc/Pagination.tsx:82-91 | shown iff the current page differs from total_pages, going one page forward |
| Pagination.NextArrowLeavesPages | app/components/misc/Pagination.tsx:82-91 | with no pages or past the last page the arrow shows and leads to an unlisted page |
| Pagination.NextTarget | app/components/misc/Pagination.tsx:82-91 | shown iff the current page is before the last, going one page forward |
| Pagination.ArrowsStayInPages | app/components/misc/Pagination.tsx:59-91 | from a listed page both arrows lead to listed pages, and the two next arrows agree |
| Pagination.PageVariant | app/components/misc/Pagination.tsx:72 | a button is filled iff it is the current page |
| Pagination.PageClick | app/components/misc/Pagination.tsx:73-77 | the current page's button does nothing; any other navigates to its page |
| Pagination.OneFilledButton | app/components/misc/Pagination.tsx:69-81 | on a listed page exactly the button at its position is filled and inert |
| Pagination.PageSizeChoicesArePrinted | app/components/misc/Pagination.tsx:48-52 | the choices are exactly 20, 50, 100, 150, 200 printed |
| Pagination.InitialRowIsChoiceIff | app/components/misc/Pagination.tsx:27-52 | the initial row shows a listed choice iff the incoming page size is one of them |
| Pagination.PageSizeSelect.constructor | app/components/misc/Pagination.tsx:27 | the row starts as the page size printed |
| Pagination.PageSizeSelect.Change | app/components/misc/Pagination.tsx:29-32 | the chosen value is navigated to as page_size and recorded as the row |
| DeleteConfirmation.ButtonCaption | app/components/misc/DeleteConfirmation.tsx:102 | 'Deleting...' while deleting, 'Delete' otherwise |
| DeleteConfirmation.AcceptedTexts | app/components/misc/DeleteConfirmation.tsx:100 | the text lowers to 'delete' iff it is six letters spelling 'delete' in any mix of cases |
| DeleteConfirmation.EnabledOnlyForDelete | app/components/misc/DeleteConfirmation.tsx:97-102 | an enabled button means nothing is deleting, reads 'Delete', and the text is 'delete' in some case (with line 38) |
| DeleteConfirmation.FieldValue | app/components/misc/DeleteConfirmation.tsx:93 | a falsy value is sent as '', any other as its text |
| DeleteConfirmation.ZeroSubmitsEmpty | app/components/misc/DeleteConfirmation.tsx:93 | 0, null and undefined are all sent as '' while 1 is sent as '1' |
| DeleteConfirmation.SubmittedFields | app/components/misc/DeleteConfirmation.tsx:86-95 | the lowered text as delete_confirm, then one field per data entry in order |
| DeleteConfirmation.SubmittedFieldsAsWritten | app/components/misc/DeleteConfirmation.tsx:91 | without data the form cannot render; with data it has one field more than the entries |
| DeleteConfirmation.MissingDataBreaksDialog | app/components/misc/DeleteConfirmation.tsx:91 | leaving out the optional data breaks the form as written; the guarded form sends only the confirmation (with line 26) |
| DeleteConfirmation.GuardAgreesWithData | app/components/misc/DeleteConfirmation.tsx:91-95 | with data both forms send the same fields |
| DeleteConfirmation.EnabledSubmitsDelete | app/components/misc/DeleteConfirmation.tsx:86-101 | whenever the button is enabled the submitted delete_confirm is exactly 'delete' |
| DeleteConfirmation.DeleteDialog.constructor | app/components/misc/DeleteConfirmation.tsx:33-35 | closed, nothing typed, the error prop (or '') as field error |
| DeleteConfirmation.DeleteDialog.OnOpen | app/components/misc/DeleteConfirmation.tsx:41-43 | opens, the rest kept |
| DeleteConfirmation.DeleteDialog.OnClose | app/components/misc/DeleteConfirmation.tsx:44-46 | closes, the rest kept |
| DeleteConfirmation.DeleteDialog.OpenChange | app/components/misc/DeleteConfirmation.tsx:52-56 | any open change closes and clears text and error, so the button is disabled whatever is loading |
| DeleteConfirmation.DeleteDialog.Type | app/components/misc/DeleteConfirmation.tsx:75 | the typed text is recorded as typed |
| JsText.Lower | app/components/permissions/grid-view.tsx:40 | `toLowerCase` on ASCII: each character lowered, same length |
| JsText.Trim | app/components/crud-forms/role-form.tsx:26 | `trim`: a slice of the input with only whitespace before and after it and none at its own ends; empty iff the input is blank |
| JsText.TrimUnique | app/components/crud-forms/role-form.tsx:26 | any slice with only whitespace around it and clean ends is the trim, so the contract of Trim determines it |
| JsText.TrimPadded | app/components/crud-forms/role-form.tsx:26 | whitespace around a clean string is exactly what trim removes |
| JsText.TrimJoin | app/components/memberhips/new-membership-dialog.tsx:102-103 | trimming two clean parts joined by a space gives them joined, or the non-empty one |
| JsText.IntToString | app/components/misc/Pagination.tsx:27 | `toString` of an integer: '-' exactly for negatives, then the digits |
| JsText.IntToStringInjective | app/components/misc/Pagination.tsx:27 | different integers print differently |
| JsText.JoinSplitReplace | app/components/misc/Sidebar/SidebarPanel.tsx:32 | `split(a).join(b)` replaces every a by b |

## Left out

- Network I/O. The fetch wrapper, the `*.queries.ts` files and the React Query hooks are not part of this model. A call's outcome is a boolean parameter (`succeeds`, `allSucceeded`, `allResolve`, `confirmSettles`), and a create or delete is a value describing the request.
- Concurrency. The `Promise.all` batches (new-permission-dialog.tsx:59-61, users/detail/memberships/index.tsx:231-235) are modelled as the list of calls issued plus one all-succeeded flag. Interleaving and partial failure are not modelled.
- Debounce timing (new-membership-dialog.tsx:60). The debounced query is an input; the debounce hook is not part of this model.
- Toasts and the other message side effects appear only as flags (`infoShown`, `successShown`).
- Rendering, routing, icons, CSS classes other than the active/highlight/variant choices, and `localStorage`.
- JavaScript object key order in the grouping maps. The groups are a Dafny `map`, so the display order of the groups is not modelled. Group contents and their order are.
- Case mapping and whitespace outside ASCII. `toLowerCase`, `toLocaleLowerCase` and `toUpperCase` map only ASCII letters. `trim` uses the ECMAScript whitespace set.
- JavaScript strings are UTF-16. Lengths, cuts (`substring(0, 8)`) and sort order here count Unicode scalar values. They differ only for characters outside the Basic Multilingual Plane.
- `JSON.parse` is the parameter `read` of PermissionCheck.GetErrorMessage. A parsed `error` field that is not a string is not modelled.
- PermissionCheck.FindOption: values are compared as strings. The option objects' other properties are not modelled.
- The role-permission diff and commit. No modelled file computes, diffs or commits a permission matrix. `card.tsx` is modelled only as the presenter of the `changes` it receives.
- `actionLocked` in permission-check.tsx (lines 78-79, 132) is threaded through but has no effect on what is computed. The Autocomplete's minimum query length is a widget setting.
- The role-form test file's mixed examples that combine case, spaces and punctuation (role-form.test.tsx:164-318 and 374-396) are covered by the general lemmas TypedLowered, TypedDropped and TypedAppend and by the short instance TypedExampleDrops, not string by string.
- Breadcrumbs.SegmentCaption: a param whose key has no resource state reads `resourceData[key]` as undefined and shows ''. Inherited object members under such a key are not modelled.
- Breadcrumbs.GetResourceName: `role.name` is assumed to be a string when `role` is present. A role without a name would throw; that is not modelled.
- DeleteConfirmation.FieldValue: only strings, integers, booleans, null and undefined are modelled as `data` values. NaN, objects and arrays are not.
- DeleteConfirmation.DeleteDialog: the field error is only shown; no modelled code path sets it after construction besides the open-change reset.
- RoleIdentifier.RoleFormFields.ChangeIdentifier: stores the filtered value, as the comment at role-form.tsx:44-45 and role-form.test.tsx expect; form-input.tsx:58-64 gives React Hook Form the raw text first, which ChangeIdentifierAsWritten models and ## Findings records.
- MembershipsPage.ExistingRoleIds: the held roles are those of the loaded page of memberships only (index.tsx:36-38 asks for 25 rows per page). A role held on another page is offered by the dialog and created again; the lemmas about held roles speak of the loaded page.
- Sidebar.ToggleRequest: `setIsExpanded` is the caller's and is not modelled beyond the value requested. The collapsed panel takes no expansion input.

## Findings

| source | as written | input that shows it | evidently intended | confidence | as-written member | corrected member |
|---|---|---|---|---|---|---|
| app/components/permissions/new-permission-dialog.tsx:76-80 | `actions.find(a => a === action)` returns the listed string, and '' is falsy, so a listed '' is appended again | Enter twice on an empty action field gives ['', ''] | a listed action is never added again, so the list stays duplicate-free | medium, not executed | NewPermissionDialog.AsWrittenAddsEmptyTwice | NewPermissionDialog.AddedActionsNoDup |
| app/components/permissions/grid-view.tsx:21-24 | `if (!groups[object])` reads inherited members of `{}`; for 'constructor' the test is false and `groups[object].push` is not a function | one permission with object 'constructor' | a plain own-key test, grouping every object | medium, not executed | PermissionGroups.AsWrittenThrowsOnConstructor | PermissionGroups.GroupByObject |
| app/components/misc/DeleteConfirmation.tsx:91 | `Object.entries(data)` with the optional `data` prop left out throws a TypeError while rendering | the dialog used without `data` | a missing `data` submits no extra fields | medium, not executed | DeleteConfirmation.MissingDataBreaksDialog | DeleteConfirmation.SubmittedFields |
| app/components/misc/Pagination.tsx:82-91 | the next arrow shows whenever current_page differs from total_pages | total_pages 0 with current_page 1 shows an arrow to page 2 | the arrow shows only before the last page | medium, not executed | Pagination.NextArrowLeavesPages | Pagination.ArrowsStayInPages |
| app/components/form/form-input.tsx:58-64 | the merged handler calls React Hook Form's `onChange` before `handleIdentifierChange` (role-form.tsx:35-48), so the form stores the identifier as typed and the later rewrite of the input's value does not reach it | typing 'A b!' into the identifier field stores 'A b!' | the stored identifier is the filtered text, always in `[a-z0-9-_]*`, as the comment at role-form.tsx:44-45 and role-form.test.tsx expect | low, not executed (depends on React Hook Form reading the event when called) | RoleIdentifier.AsWrittenStoresRawText | RoleIdentifier.RoleFormFields.ChangeIdentifier |
