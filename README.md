# nextjs-template: the project-creation wizard and its Lambda handlers, in Dafny

The repository is a Next.js application template. A visitor creates a project through a
thirteen-step wizard (`app/create/page.tsx`): a project name, the website type, a description,
media, a colour design, authentication providers, pricing cards, payment methods, a sitemap,
storage use cases, a database schema, hosting domains and a closing summary. Each step is a React
component that keeps its own state and hands its result to the wizard through `setData` and
`onNext`. The back end is a set of Python AWS Lambda functions. This model covers three of them:
the sign-up handler, an SQL test console handler and the sitemap-to-pages JSON processor.

This Dafny project models:

- **The database-schema editor** (`AddDatabaseStep`), in `schema_editor.dfy`. It keeps tables
  of fields, the graph nodes drawn for them, relationship edges with a cardinality (`1:1`, `1:n`,
  `n:m`), a pending edge waiting for a cardinality, and an edge whose cardinality is being
  edited. Class `SchemaEditor.Editor` holds the seven state slots as fields, and its methods are
  the event handlers. Each handler's new state is a pure function of the old one (filter, map,
  append), and those functions carry lemmas. The module-level predicate `Integrity` states what
  every handler preserves:
  - node ids equal table ids, in order;
  - table ids are distinct, and so are field ids within each table;
  - every edge and the pending edge join existing tables.
- **The wizard page** (`wizard.dfy`): step navigation with clamping, the step-to-component switch,
  the per-step `canProceed` gates and the `formData` merge. Each `setData` closure fixes its slot
  when the page renders the step.
- **The step components**, each a class over its state slots:
  - hosting domains (`hosting.dfy`);
  - storage use cases (`storage.dfy`);
  - payment methods (`payments.dfy`);
  - authentication providers (`auth_step.dfy`);
  - pricing cards and the inline text editor (`pricing.dfy`);
  - colour palettes (`design.dfy`);
  - the three-question project-info step (`project_info.dfy`).
- **The list logic these steps share** (`lists.dfy`): toggle, filter-out and add-if-new-and-trimmed.
- **`getInitials`** and the navigation bar's avatar fallback (`initials.dfy`).
- **The sign-up handler** (`signup.dfy`): `validate_input` as a loop filling the error map, the
  status-code dispatch and the input normalisation.
- **The SQL test handler** (`sql_test.dfy`): `validate_sql`, `format_response` (nested loops
  building the result records) and the request gating of `handler`.
- **The JSON processor** (`json_processor.dfy`): the sitemap loop that builds the pages, its
  error codes and its `try`/`finally` output.
- **Shared definitions:**
  - `text.dfy`: ASCII strings, Python `str.strip` and JavaScript `String.prototype.trim`
    with their different whitespace sets, case mapping, substring search, `str(int)`, and
    JavaScript `split(' ')`.
  - `json.dfy`: JSON values with Python truthiness, `dict.get` and `in`.
  - `common.dfy`: `Option` and the host callbacks (`setData`, `onNext`, `onBack`).

Clocks, randomness and the database are parameters:
- `Date.now()` is a `now: nat` argument, with freshness of the ids it yields as a precondition.
- `Math.random()` is the drawn number, `Design.Draw`.
- `json.loads` is a supplied `loads` function.
- `str(field)` is a supplied `render` function.
- The RDS Data API call is a supplied `execute` function.
- The sign-up database is an abstract `Db`: the emails already registered, and whether the
  lookup or the insert raises.

In the schema editor's code:
- There is no way to dismiss a pending edge; only the submit form exists.
- `onConnect` does not check that the endpoints exist, so `SchemaEditor.Editor.Connect` takes
  that as a precondition supplied by the rendering surface.
- A field's type is any string, not a fixed enumeration.
- A new node is placed at `x = 200 + 180 * (number of nodes)`, `y = 120`. It is not offset
  from the last-placed node, so after a node is removed the next one can land exactly on top
  of a node that is still there (`SchemaEditor.PlacementAfterRemovalOverlaps`).
- No handler of the component deletes a relationship.

## Model

| member | source | states |
|---|---|---|
| Common.SetDataThenNext | components/create-steps/AddHostingStep.tsx:34-37 | a Continue handler calls `setData(d)` first (only when the host supplied it) and `onNext` last, and nothing else |
| Text.PyStrip | infra/lambda/signup-handler/index.py:134 | Python `str.strip()` on ASCII: it removes, at both ends, the space, tab, newline, vertical tab, form feed, carriage return and the separators 0x1C–0x1F; `Text.StripShape` fixes the result and `Text.PyStripIdempotent` states idempotence |
| Text.JsTrim | components/create-steps/AddHostingStep.tsx:17 | JavaScript `trim()` on ASCII: the same set as Python's strip without the separators 0x1C–0x1F, which `trim` keeps; `Text.StripShape` fixes the result and `Text.JsTrimIdempotent` states idempotence |
| Text.StripShape | infra/lambda/signup-handler/index.py:134 | the stripped string is the slice of the input after the leading blanks; every character cut off before it and after it is blank, it neither starts nor ends with a blank, and it is empty exactly when every character is blank |
| Text.StripIdempotent | infra/lambda/signup-handler/index.py:139 | stripping twice is stripping once |
| Text.PyStripIdempotent | infra/lambda/signup-handler/index.py:192-193 | Python `strip()` is idempotent |
| Text.JsTrimIdempotent | components/create-steps/AddHostingStep.tsx:17-19 | JavaScript `trim()` is idempotent, so a stored trimmed value equals its own trim |
| Text.Upper | infra/lambda/sqltest-handler/index.py:97 | upper-casing keeps the length and maps each character on its own |
| Text.Lower | infra/lambda/signup-handler/index.py:192 | lower-casing keeps the length and maps each character on its own |
| Text.UpperIsUpper | infra/lambda/sqltest-handler/index.py:97 | an upper-cased string has no lower-case letter and is fixed by upper-casing |
| Text.ContainsInfix | infra/lambda/sqltest-handler/index.py:117 | a string contains every substring placed in it |
| Text.NatToString | infra/lambda/sqltest-handler/index.py:75 | `str(i)` is a non-empty string of decimal digits |
| Text.ParseNatToString | infra/lambda/sqltest-handler/index.py:75 | the decimal text of `i` reads back as `i` |
| Text.NatToStringInjective | infra/lambda/sqltest-handler/index.py:75 | different column positions give different `column_i` names |
| Text.Split | app/settings/page.tsx:21 | `split(' ')` always yields at least one piece; that the pieces are the string cut at each space is `Text.JoinSplit` and `Text.SplitJoin` |
| Text.SplitCount | app/settings/page.tsx:21 | `split(' ')` yields one more piece than there are spaces, and no piece holds a space |
| Text.JoinSplit | app/settings/page.tsx:21 | joining the pieces of `split(' ')` with a space gives the string back, so splitting loses nothing |
| Text.SplitWithoutSeparator | app/settings/page.tsx:21 | a string without the separator, such as a name without spaces, splits into itself |
| Text.SplitAround | app/settings/page.tsx:21 | a separator cuts the string into the pieces of its two sides |
| Text.SplitJoin | app/settings/page.tsx:21 | at least one piece, none holding the separator, joined and split again gives the same pieces: split and join are inverse |
| Lists.Remove | components/create-steps/AddHostingStep.tsx:24-26 | `filter(x => x !== v)` drops every `v` and keeps every other element |
| Lists.RemoveAbsent | components/create-steps/AddStorageStep.tsx:46-48 | removing a value that is not listed changes nothing |
| Lists.RemoveAt | components/create-steps/AddHostingStep.tsx:24-26 | on a duplicate-free list, removing the element at position k keeps the others in order |
| Lists.RemoveAppend | components/create-steps/AddStorageStep.tsx:46-48 | filtering distributes over concatenation, which is order preservation |
| Lists.RemoveNoDup | components/create-steps/AddStorageStep.tsx:46-48 | removing keeps a list duplicate-free |
| Lists.Toggle | components/create-steps/AddPaymentsStep.tsx:31-35 | `prev.includes(v) ? prev.filter(x => x !== v) : [...prev, v]`; its effect is stated by `Lists.ToggleEffect`, `Lists.ToggleNoDup` and the two toggle-twice lemmas |
| Lists.ToggleEffect | components/create-steps/AddPaymentsStep.tsx:31-35 | toggling removes a listed value and leaves the others listed; it appends an unlisted value at the end; afterwards the value is listed exactly when it was not before |
| Lists.ToggleNoDup | components/create-steps/AddStorageStep.tsx:31-37 | toggling keeps a list duplicate-free |
| Lists.ToggleTwiceAbsent | components/create-steps/AddPaymentsStep.tsx:31-35 | toggling an unlisted value twice restores the list |
| Lists.ToggleTwicePresent | components/create-steps/AddPaymentsStep.tsx:31-35 | toggling a listed value twice moves it to the end and keeps the others in order |
| Lists.AddTrimmed | components/create-steps/AddHostingStep.tsx:16-22 | the trimmed input is appended and the input cleared exactly when the trim is non-empty and not yet listed; otherwise list and input stay |
| Lists.AddTrimmedNoDup | components/create-steps/AddStorageStep.tsx:39-44 | adding a custom value keeps the list duplicate-free |
| Lists.AddTrimmedKeeps | components/create-steps/AddHostingStep.tsx:17-19 | the domain invariant is preserved by adding: duplicate-free, every entry non-empty and its own trim |
| Lists.AddTrimmedTwice | components/create-steps/AddHostingStep.tsx:16-22 | pressing Add again right after an add or a refused add changes nothing |
| Lists.RemoveKeeps | components/create-steps/AddHostingStep.tsx:24-26 | removing a domain preserves the domain invariant |
| Json.Get | infra/lambda/json-processor/index.py:13 | `d.get(k)` is the stored value, or `None` for a missing key |
| Json.GetOr | infra/lambda/json-processor/index.py:10 | `d.get(k, default)` is the stored value, or the default for a missing key |
| Json.PyIn | infra/lambda/json-processor/index.py:19 | `'k' in x` tests keys of a dict, elements of a list and substrings of a string; any other value raises |
| Json.LoadBody | infra/lambda/signup-handler/index.py:157-161 | a string body is decoded, a missing body reads as `{}`, and any other body is used as it is |
| SchemaEditor.NewTable | components/create-steps/AddDatabaseStep.tsx:224-235 | a new table has the clock's id, the name "new_table" and one field "id" of type "uuid", not primary |
| SchemaEditor.NewNodePosition | components/create-steps/AddDatabaseStep.tsx:236-245 | the node of a table added when `count` nodes exist is placed at exactly (200 + 180 · count, 120), 180 further right per node present |
| SchemaEditor.PlacementAfterRemovalOverlaps | components/create-steps/AddDatabaseStep.tsx:236-250 | because the stride counts the nodes present, two additions followed by removing the first new node place the next node exactly on the surviving one |
| SchemaEditor.FindTable | components/create-steps/AddDatabaseStep.tsx:204 | `tables.find` succeeds exactly for a listed id and returns a table with that id |
| SchemaEditor.FindTableAt | components/create-steps/AddDatabaseStep.tsx:204 | with distinct ids, `find` returns the table at that id's position |
| SchemaEditor.RemoveTable | components/create-steps/AddDatabaseStep.tsx:247 | `tables.filter(t => t.id !== id)` never lengthens the list; which tables it keeps is stated by `SchemaEditor.RemoveTableIn` and `SchemaEditor.RemoveTableMembers` |
| SchemaEditor.RemoveNode | components/create-steps/AddDatabaseStep.tsx:248 | `nodes.filter(n => n.id !== id)` never lengthens the list; that it keeps nodes and tables in step is `SchemaEditor.RemoveKeepsSynced` |
| SchemaEditor.RemoveTableIn | components/create-steps/AddDatabaseStep.tsx:247 | deleting a table keeps every other table and no table with that id |
| SchemaEditor.RemoveEdgesOf | components/create-steps/AddDatabaseStep.tsx:249 | the cascade keeps exactly the edges that neither start nor end at the deleted table |
| SchemaEditor.SyncedIds | components/create-steps/AddDatabaseStep.tsx:201-221 | a synchronised node list has exactly the table ids, in order |
| SchemaEditor.RemoveKeepsSynced | components/create-steps/AddDatabaseStep.tsx:246-250 | filtering the table and its node out keeps nodes and tables in step |
| SchemaEditor.RemoveTableNoDup | components/create-steps/AddDatabaseStep.tsx:247 | the remaining table ids stay distinct; the deleted id is gone; nothing new appears |
| SchemaEditor.RemoveTableAbsent | components/create-steps/AddDatabaseStep.tsx:247 | deleting an absent table id changes no table |
| SchemaEditor.RemoveNodeAbsent | components/create-steps/AddDatabaseStep.tsx:248 | deleting an absent id changes no node |
| SchemaEditor.RemoveEdgesAbsent | components/create-steps/AddDatabaseStep.tsx:249 | when no edge touches the id, the edges stay |
| SchemaEditor.RemoveTableAt | components/create-steps/AddDatabaseStep.tsx:247 | deleting the table at position k keeps the others in order |
| SchemaEditor.RemoveEdgesAppend | components/create-steps/AddDatabaseStep.tsx:249 | the edge cascade preserves the order of the remaining edges |
| SchemaEditor.RenameTable | components/create-steps/AddDatabaseStep.tsx:251-253 | renaming changes only the name of the addressed table; ids and fields of all tables stay |
| SchemaEditor.SetFieldValue | components/create-steps/AddDatabaseStep.tsx:261-266 | a field edit sets the name or the type of the addressed field only; other fields and the primary flag stay |
| SchemaEditor.SetFieldType | components/create-steps/AddDatabaseStep.tsx:267-272 | the type editor is the field edit with the type key |
| SchemaEditor.FlipPrimary | components/create-steps/AddDatabaseStep.tsx:273-278 | the primary toggle negates the addressed field's flag, reading a missing flag as false, and changes nothing else |
| SchemaEditor.RemoveField | components/create-steps/AddDatabaseStep.tsx:282 | `t.fields.filter(f => f.id !== fieldId)` never lengthens the list; which fields it keeps is stated by `SchemaEditor.RemoveFieldIn` and `SchemaEditor.RemoveFieldEffect` |
| SchemaEditor.RemoveFieldIn | components/create-steps/AddDatabaseStep.tsx:279-284 | deleting a field keeps every other field and no field with that id |
| SchemaEditor.EditFields | components/create-steps/AddDatabaseStep.tsx:255-284 | a field-level handler rewrites the fields of the addressed table only; names and ids of all tables stay |
| SchemaEditor.AddField | components/create-steps/AddDatabaseStep.tsx:255-260 | adding a field changes only the fields of the addressed table, keeps every table id and name, and gives each addressed table exactly one more field |
| SchemaEditor.ChangeField | components/create-steps/AddDatabaseStep.tsx:261-266 | a field edit changes only the fields of the addressed table, keeps every table id and name, and keeps every table's field ids |
| SchemaEditor.ChangeFieldType | components/create-steps/AddDatabaseStep.tsx:267-272 | a type edit changes only the fields of the addressed table, keeps every table id and name, and keeps every table's field ids |
| SchemaEditor.TogglePrimary | components/create-steps/AddDatabaseStep.tsx:273-278 | a primary toggle changes only the fields of the addressed table, keeps every table id and name, and keeps every table's field ids |
| SchemaEditor.DeleteField | components/create-steps/AddDatabaseStep.tsx:279-284 | a field delete changes only the fields of the addressed table, keeps every table id and name, and never lengthens a field list |
| SchemaEditor.AddFieldEffect | components/create-steps/AddDatabaseStep.tsx:255-260 | adding a field appends `{name "", type "", isPrimary false}` after the addressed table's fields and changes no other table; an absent table id changes nothing |
| SchemaEditor.EditAbsentTable | components/create-steps/AddDatabaseStep.tsx:251-284 | renaming or editing the fields of an absent table is a no-op |
| SchemaEditor.EditAbsentField | components/create-steps/AddDatabaseStep.tsx:261-284 | editing, toggling or deleting an absent field is a no-op |
| SchemaEditor.FlipPrimaryTwice | components/create-steps/AddDatabaseStep.tsx:273-278 | two toggles restore every field's primary status, and an unset flag becomes an explicit false |
| SchemaEditor.TwoPrimaryKeys | components/create-steps/AddDatabaseStep.tsx:171-189 | the initial table can have two primary fields at once |
| SchemaEditor.RemoveFieldNoDup | components/create-steps/AddDatabaseStep.tsx:282 | deleting a field keeps field ids distinct |
| SchemaEditor.RemoveFieldEffect | components/create-steps/AddDatabaseStep.tsx:282 | the deleted field id is gone and every other field remains |
| SchemaEditor.Refresh | components/create-steps/AddDatabaseStep.tsx:201-221 | the node refresh keeps every node's id, position and order; a node with a matching table carries that table as data; the other nodes are untouched |
| SchemaEditor.Render | components/create-steps/AddDatabaseStep.tsx:345-356 | the rendered nodes keep ids, positions and order, and a node without a table renders with no table data |
| SchemaEditor.RefreshAligned | components/create-steps/AddDatabaseStep.tsx:201-221 | a node list aligned position by position with the tables becomes synchronised with them |
| SchemaEditor.RenderSynced | components/create-steps/AddDatabaseStep.tsx:345-356 | on a synchronised state, rendering and refreshing give back the nodes unchanged |
| SchemaEditor.ProposedEdge | components/create-steps/AddDatabaseStep.tsx:288-295 | a connect gesture proposes an edge between its endpoints with label and cardinality `1:1` |
| SchemaEditor.Commit | components/create-steps/AddDatabaseStep.tsx:300-309 | the edges after `handleRelTypeSubmit`; what it appends is stated by `SchemaEditor.CommitEffect` |
| SchemaEditor.CommitEffect | components/create-steps/AddDatabaseStep.tsx:300-309 | submitting appends exactly one edge, the pending one with the chosen cardinality as label and type; without a pending edge nothing changes |
| SchemaEditor.Relabel | components/create-steps/AddDatabaseStep.tsx:317-325 | re-labelling rewrites the cardinality of the edited edge only and keeps every edge's id and endpoints and the edge count |
| SchemaEditor.RelabelWithin | components/create-steps/AddDatabaseStep.tsx:317-325 | re-labelling keeps every edge between existing tables |
| SchemaEditor.DeleteTableAsWritten | components/create-steps/AddDatabaseStep.tsx:246-250 | `handleDeleteTable` as written: the table and edge filters, with the pending edge left as it was; `SchemaEditor.DeleteTableAsWrittenPendingIff` states its effect on every consistent state |
| SchemaEditor.DeleteTableAsWrittenPendingIff | components/create-steps/AddDatabaseStep.tsx:246-250 | for every state whose edges join existing tables, the handler as written keeps the committed edges within the remaining tables, and keeps the pending edge within them if and only if nothing is pending or the pending edge does not touch the deleted table |
| SchemaEditor.DeleteThenSubmitAsWrittenDangles | components/create-steps/AddDatabaseStep.tsx:246-250 | connecting table-1 to a new table, deleting table-1 and submitting commits an edge to a table that no longer exists |
| SchemaEditor.DiscardPendingOf | components/create-steps/AddDatabaseStep.tsx:246-250 | the corrected delete keeps the pending edge exactly when it does not touch the deleted table |
| SchemaEditor.DeleteKeepsIntegrity | components/create-steps/AddDatabaseStep.tsx:246-250 | after the corrected delete, every edge and the pending edge join tables that still exist, and no edge touches the deleted id |
| SchemaEditor.DeleteIntegrity | components/create-steps/AddDatabaseStep.tsx:246-250 | deleting a table (corrected) preserves the whole integrity invariant, and the node refresh afterwards changes nothing |
| SchemaEditor.AddIntegrity | components/create-steps/AddDatabaseStep.tsx:224-245 | appending a fresh table and its placed node preserves the integrity invariant once the new node is refreshed with the table's data |
| SchemaEditor.RemoveTableMembers | components/create-steps/AddDatabaseStep.tsx:247 | every other table id survives the delete and the deleted id does not |
| SchemaEditor.DeleteAbsentTable | components/create-steps/AddDatabaseStep.tsx:246-250 | deleting an absent table changes no tables, nodes, edges or pending edge |
| SchemaEditor.Editor.constructor | components/create-steps/AddDatabaseStep.tsx:171-221 | the editor starts with the users table and its node at (100, 100), which the first refresh fills with that table; there are no edges, nothing is pending or edited, and both cardinalities are `1:1` |
| SchemaEditor.Editor.AddTable | components/create-steps/AddDatabaseStep.tsx:224-245 | adding appends the new table and a node with its id at the staggered position carrying its data; the other slots stay; the invariant holds |
| SchemaEditor.Editor.DeleteTable | components/create-steps/AddDatabaseStep.tsx:246-250 | deleting removes the table, its node and every edge touching it, and (corrected) a pending edge touching it; the other slots stay; the invariant holds |
| SchemaEditor.Editor.ApplyTableEdit | components/create-steps/AddDatabaseStep.tsx:201-221 | a tables update that keeps the ids is followed by the node refresh; positions and node ids stay and the invariant holds |
| SchemaEditor.Editor.RenameTableTo | components/create-steps/AddDatabaseStep.tsx:251-253 | the rename handler's new tables, with node positions, edges and the flows untouched |
| SchemaEditor.Editor.ApplyFieldEdit | components/create-steps/AddDatabaseStep.tsx:255-284 | a field-level edit of one table, with node positions, edges and the flows untouched |
| SchemaEditor.Editor.AddFieldTo | components/create-steps/AddDatabaseStep.tsx:255-260 | the add-field handler's new tables, with node positions, edges and the flows untouched |
| SchemaEditor.Editor.ChangeFieldOf | components/create-steps/AddDatabaseStep.tsx:261-266 | the field-change handler's new tables, with node positions, edges and the flows untouched |
| SchemaEditor.Editor.ChangeFieldTypeOf | components/create-steps/AddDatabaseStep.tsx:267-272 | the type-change handler's new tables, with node positions, edges and the flows untouched |
| SchemaEditor.Editor.TogglePrimaryOf | components/create-steps/AddDatabaseStep.tsx:273-278 | the primary-toggle handler's new tables, with node positions, edges and the flows untouched |
| SchemaEditor.Editor.DeleteFieldOf | components/create-steps/AddDatabaseStep.tsx:279-284 | the field-delete handler's new tables, with node positions, edges and the flows untouched |
| SchemaEditor.Editor.Connect | components/create-steps/AddDatabaseStep.tsx:287-297 | connecting replaces the pending edge with the proposed `1:1` edge and resets the chosen cardinality to `1:1`; tables, nodes and edges stay |
| SchemaEditor.Editor.ChoosePendingRelType | components/create-steps/AddDatabaseStep.tsx:379 | the pending chooser sets the cardinality to submit and nothing else |
| SchemaEditor.Editor.SubmitRelType | components/create-steps/AddDatabaseStep.tsx:300-309 | submitting commits the pending edge with the chosen cardinality and clears the pending edge |
| SchemaEditor.Editor.EdgeClick | components/create-steps/AddDatabaseStep.tsx:312-316 | clicking an edge starts editing it, seeded with its cardinality |
| SchemaEditor.Editor.ChooseEditingRelType | components/create-steps/AddDatabaseStep.tsx:401 | the edit chooser sets the cardinality to apply and nothing else |
| SchemaEditor.Editor.SubmitEditRelType | components/create-steps/AddDatabaseStep.tsx:317-325 | submitting the edit re-labels the edited edge and stops editing |
| SchemaEditor.Editor.Continue | components/create-steps/AddDatabaseStep.tsx:332-335 | Continue hands `{tables, edges}` to `setData` when supplied and calls `onNext` last |
| Signup.RequiredError | infra/lambda/signup-handler/index.py:129-135 | the per-field check of the `required_fields` loop, in its order; each outcome is characterised by `Signup.RequiredErrorCases` |
| Signup.EmailError | infra/lambda/signup-handler/index.py:129-141 | the problem recorded for `email`; that the format check applies only after the required checks is `Signup.FormatCheckOnlyAfterRequired` |
| Signup.DisplayNameError | infra/lambda/signup-handler/index.py:144-147 | the problem recorded for `display_name`; its 100-character boundary is `Signup.DisplayNameBoundary` |
| Signup.RequiredErrorCases | infra/lambda/signup-handler/index.py:129-135 | a field is "required" exactly when falsy, "must be a string" exactly when truthy but not a string, "cannot be empty" exactly when a non-empty string of whitespace, and passes exactly when its strip is non-empty |
| Signup.ErrorsOf | infra/lambda/signup-handler/index.py:124-149 | the error map has keys only from email and display_name, one per failing field |
| Signup.InputErrors | infra/lambda/signup-handler/index.py:124-149 | `validate_input` reports an email error exactly when the email fails and a display-name error exactly when the display name fails |
| Signup.ValidateInput | infra/lambda/signup-handler/index.py:124-149 | the loop over the required fields and the two later checks compute exactly the error map of the specification |
| Signup.InputErrorsEmptyIff | infra/lambda/signup-handler/index.py:124-149 | the error map is empty exactly when both fields pass; an email never gets the length error and a display name never gets the format error |
| Signup.AcceptableIff | infra/lambda/signup-handler/index.py:124-149 | a body is accepted exactly when neither field has an error |
| Signup.DisplayNameBoundary | infra/lambda/signup-handler/index.py:144-147 | a stripped display name is accepted up to and including 100 characters and refused above |
| Signup.FormatCheckOnlyAfterRequired | infra/lambda/signup-handler/index.py:138-141 | the email format error arises exactly when the email passed the required checks and its strip lacks '@' or '.' |
| Signup.Handle | infra/lambda/signup-handler/index.py:151-268 | a body that fails to decode is answered "Invalid JSON", and a body that decodes to something other than a dict raises in validation and ends in the catch-all 500 |
| Signup.Register | infra/lambda/signup-handler/index.py:191-253 | once validation passed, the lookup and insert path never answers 400 |
| Signup.BadRequestsNeverReachDb | infra/lambda/signup-handler/index.py:157-189 | a 400 answer does not depend on the database at all |
| Signup.InvalidJsonIff | infra/lambda/signup-handler/index.py:157-173 | "Invalid JSON" is answered exactly for a string body that does not decode |
| Signup.ValidationFailedIff | infra/lambda/signup-handler/index.py:175-189 | "Validation failed" is answered exactly for a body that fails validation, carrying its error map |
| Signup.HandleFields | infra/lambda/signup-handler/index.py:175-253 | the handler once the body is a dict; its answers are characterised by `Signup.ValidationFailedIff` and `Signup.ConflictIffExisting` |
| Signup.HandleDict | infra/lambda/signup-handler/index.py:157-176 | a body that decodes to an object is handled on its fields |
| Signup.ConflictIffExisting | infra/lambda/signup-handler/index.py:192-214 | an accepted body gets 409 exactly when its normalised email is registered, and otherwise, if the insert succeeds, is created with the normalised email and stripped display name |
| Signup.CreatedFrom | infra/lambda/signup-handler/index.py:151-253 | a created user comes only from a decoded object body that passed validation |
| Signup.CreatedIsNormalised | infra/lambda/signup-handler/index.py:192-200 | a created user's email is stripped, lower-case, unregistered and holds '@' and '.', and the display name is stripped and 1 to 100 characters long |
| Signup.NormalisedEmail | infra/lambda/signup-handler/index.py:192 | a stripped and lower-cased email is fixed by both operations and keeps its '@' and '.' |
| Signup.LowerIdempotent | infra/lambda/signup-handler/index.py:192 | lower-casing twice is lower-casing once |
| Signup.LowerKeepsContains | infra/lambda/signup-handler/index.py:192 | lower-casing keeps every non-letter character, so '@' and '.' survive |
| Signup.LowerKeepsStripped | infra/lambda/signup-handler/index.py:192 | lower-casing a stripped string leaves it stripped |
| SqlTest.FirstContained | infra/lambda/sqltest-handler/index.py:112-114 | the keyword search fails exactly when no keyword occurs, and otherwise returns a keyword that occurs |
| SqlTest.FirstContainedIsFirst | infra/lambda/sqltest-handler/index.py:112-114 | the keyword returned is the first of the list that occurs |
| SqlTest.ValidateSql | infra/lambda/sqltest-handler/index.py:95-120 | `validate_sql` on the upper-cased, stripped query; its verdicts are characterised by `SqlTest.Screen`, `SqlTest.DropAlwaysRejected`, `SqlTest.AllowedVerbs`, `SqlTest.OtherQueries` and `SqlTest.CatalogQueries` |
| SqlTest.Screen | infra/lambda/sqltest-handler/index.py:100-118 | a keyword refusal names a dangerous keyword the query contains, and a DROP refusal only happens when DROP occurs |
| SqlTest.DropAlwaysRejected | infra/lambda/sqltest-handler/index.py:116-118 | DROP anywhere in the upper-cased query, even inside a word, is refused |
| SqlTest.AllowedVerbs | infra/lambda/sqltest-handler/index.py:104 | a query starting with an allowed verb is accepted unless it contains DROP, whatever other keywords it holds |
| SqlTest.OtherQueries | infra/lambda/sqltest-handler/index.py:104-114 | any other query that mentions no catalog phrase is refused with the first dangerous keyword in it, and accepted when it has none |
| SqlTest.CatalogQueries | infra/lambda/sqltest-handler/index.py:106-111 | a query that mentions a catalog phrase skips the keyword check and is refused only for DROP |
| SqlTest.MessageValid | infra/lambda/sqltest-handler/index.py:120 | the message is "Valid" exactly for an accepted query |
| SqlTest.NormaliseIdempotent | infra/lambda/sqltest-handler/index.py:97 | upper-casing and stripping is idempotent, so the verdict depends only on the normalised query |
| SqlTest.NormalisedIsFixed | infra/lambda/sqltest-handler/index.py:97 | a normalised query is fixed by normalising it again |
| SqlTest.Keys | infra/lambda/sqltest-handler/index.py:73-89 | the key list of a record has one key per entry, the key of entry i at position i; that the keys are the column names is `SqlTest.RowOfDistinct` |
| SqlTest.Assign | infra/lambda/sqltest-handler/index.py:79-89 | assigning to a dict overwrites an existing key in place and appends a new key at the end, keeping keys distinct |
| SqlTest.AssignLookup | infra/lambda/sqltest-handler/index.py:79-89 | after the assignment the key reads as the new value and the other keys are unchanged |
| SqlTest.ColumnName | infra/lambda/sqltest-handler/index.py:75 | column i is named from the metadata while i is in range, and `column_i` after it |
| SqlTest.FieldValuePriority | infra/lambda/sqltest-handler/index.py:78-89 | a field's value is its stringValue, else longValue, else doubleValue, else booleanValue, else `None` for a true isNull, else its string form |
| SqlTest.RowOf | infra/lambda/sqltest-handler/index.py:73-89 | a formatted record has distinct column names |
| SqlTest.RowOfFails | infra/lambda/sqltest-handler/index.py:75 | a record fails to format exactly when some position's metadata entry lacks a name |
| SqlTest.RowOfLastWins | infra/lambda/sqltest-handler/index.py:74-89 | a column takes the value of the last field carrying its name |
| SqlTest.RowOfDistinct | infra/lambda/sqltest-handler/index.py:74-89 | with distinct column names, the record has one entry per field, in order, each its column name and value |
| SqlTest.RowsOf | infra/lambda/sqltest-handler/index.py:72-91 | one formatted record per input record, in order, and a failure only from a failing record |
| SqlTest.FormatResponse | infra/lambda/sqltest-handler/index.py:60-93 | the loops over records and fields compute exactly the specified formatted response |
| SqlTest.FormatRecord | infra/lambda/sqltest-handler/index.py:73-89 | the inner loop computes exactly the specified formatted record |
| SqlTest.Format | infra/lambda/sqltest-handler/index.py:60-93 | the value `format_response` returns; its shape is stated by `SqlTest.FormatShape` and the loops that compute it by `SqlTest.FormatResponse` |
| SqlTest.FormatShape | infra/lambda/sqltest-handler/index.py:62-72 | the response has one record per input record, each the formatted input record; numberOfRecordsUpdated defaults to 0 and columnMetadata to [] |
| SqlTest.FormatWithoutMetadata | infra/lambda/sqltest-handler/index.py:74-75 | without metadata the columns are `column_0`, `column_1`, … in order |
| SqlTest.Run | infra/lambda/sqltest-handler/index.py:189-223 | executing answers either the database error or the formatted result, for the query it was given |
| SqlTest.Handle | infra/lambda/sqltest-handler/index.py:122-238 | `handler` on a parsed body; its status codes are stated by `SqlTest.StatusCodes` and its refusals by `SqlTest.RejectedNeverExecuted` |
| SqlTest.StatusCodes | infra/lambda/sqltest-handler/index.py:122-238 | the handler answers 200, 400 or 500, and 200 exactly when the query ran |
| SqlTest.BadRequestsNeverExecuted | infra/lambda/sqltest-handler/index.py:147-186 | a 400 answer does not depend on the database, and a refusal carries a verdict other than Valid |
| SqlTest.RejectedNeverExecuted | infra/lambda/sqltest-handler/index.py:128-186 | no 400 answer, from decoding through validation, depends on the database |
| SqlTest.HandleSql | infra/lambda/sqltest-handler/index.py:147-223 | the handling of the body's `sql` entry; `SqlTest.BlankSqlRefused` and `SqlTest.ExecutedQueriesPassed` state what it refuses and what it runs |
| SqlTest.BlankSqlRefused | infra/lambda/sqltest-handler/index.py:147-162 | a missing or whitespace-only `sql` is refused as missing before validation |
| SqlTest.ExecutedQueriesPassed | infra/lambda/sqltest-handler/index.py:147-200 | only the stripped, non-empty, validated query is executed, and its result is returned formatted |
| JsonProcessor.TruthyOnlyMembers | infra/lambda/json-processor/index.py:42-47 | the kept section names are exactly the truthy ones |
| JsonProcessor.TruthyOnlyAppend | infra/lambda/json-processor/index.py:42-47 | keeping the truthy names preserves input order |
| JsonProcessor.TruthyOnlyAllTruthy | infra/lambda/json-processor/index.py:42-47 | when every name is truthy, all are kept |
| JsonProcessor.NamesOf | infra/lambda/json-processor/index.py:43 | one `section.get('name')` per section, in order |
| JsonProcessor.SectionNames | infra/lambda/json-processor/index.py:37-47 | the section names of one page; `JsonProcessor.SectionNamesSpec` characterises them |
| JsonProcessor.SectionNamesSpec | infra/lambda/json-processor/index.py:37-47 | a non-list `sections` gives no names; otherwise the names kept are exactly the truthy ones, and a section that is not an object raises |
| JsonProcessor.Kept | infra/lambda/json-processor/index.py:29-35 | the pages processed are objects with a truthy id |
| JsonProcessor.KeptMembers | infra/lambda/json-processor/index.py:29-35 | a page is processed exactly when it is an object with a truthy id |
| JsonProcessor.KeptAppend | infra/lambda/json-processor/index.py:29-35 | the processed pages keep input order |
| JsonProcessor.Entry | infra/lambda/json-processor/index.py:30-31 | a page entry's id is `page.get('id')` and its title the 'title' value, falling back to the id only when the key is absent |
| JsonProcessor.Entries | infra/lambda/json-processor/index.py:49-53 | one entry per processed page, in order |
| JsonProcessor.CollectSectionNames | infra/lambda/json-processor/index.py:37-47 | the section loop computes exactly the specified names or the raise |
| JsonProcessor.CollectPages | infra/lambda/json-processor/index.py:29-53 | the page loop computes exactly the specified pages or the raise |
| JsonProcessor.Process | infra/lambda/json-processor/index.py:5-71 | the handler's output; `JsonProcessor.Handler` proves the loops compute it, and `JsonProcessor.OutputShape` and the three error lemmas characterise it |
| JsonProcessor.Handler | infra/lambda/json-processor/index.py:5-71 | the handler, with its branches, `try`/`except` and `finally`, computes exactly the specified output |
| JsonProcessor.OutputShape | infra/lambda/json-processor/index.py:10-69 | the output always carries `projectId` (default "unknown"), and any error comes with no pages |
| JsonProcessor.MissingProjectDataIff | infra/lambda/json-processor/index.py:13-18 | MISSING_PROJECT_DATA arises exactly when `projectData` is missing or falsy |
| JsonProcessor.MissingSitemapIff | infra/lambda/json-processor/index.py:19-22 | MISSING_SITEMAP arises exactly when a truthy `projectData` has no 'sitemap' |
| JsonProcessor.EmptySitemap | infra/lambda/json-processor/index.py:23-26 | a non-list or empty sitemap gives no pages and no error |
| JsonProcessor.Pages | infra/lambda/json-processor/index.py:29-53 | the pages of a non-empty sitemap; `JsonProcessor.PageMapping` and `JsonProcessor.InternalErrorIff` characterise them |
| JsonProcessor.PageMapping | infra/lambda/json-processor/index.py:29-53 | each page with a truthy id yields one entry, in order, with its id, title and section names |
| JsonProcessor.SkippedPage | infra/lambda/json-processor/index.py:33-35 | a page with a falsy id adds nothing |
| JsonProcessor.InternalErrorIff | infra/lambda/json-processor/index.py:56-62 | for a non-empty sitemap, INTERNAL_ERROR with no pages arises exactly when some page or section raises |
| Wizard.InitialForm | app/create/page.tsx:48-61 | the form starts with empty answers and `{}` in every data slot |
| Wizard.NextStep | app/create/page.tsx:65 | `goNext` increments the step but never beyond 12 |
| Wizard.PrevStep | app/create/page.tsx:66 | `goBack` decrements the step but never below 0 |
| Wizard.MovesStayInRange | app/create/page.tsx:19-33 | moves keep the step within the thirteen steps, undo each other away from the ends, and stop at the ends |
| Wizard.ProgressFlags | app/create/page.tsx:162-163 | a progress-bar button is enabled exactly when pressing it moves the step |
| Wizard.StepComponent | app/create/page.tsx:86-151 | a step outside 0..12 renders no component, and steps 3 to 11 render the data steps |
| Wizard.SlotStep | app/create/page.tsx:120-144 | each data slot is written by the data step that renders it |
| Wizard.SlotOwnedByOneStep | app/create/page.tsx:120-144 | no two steps write the same slot |
| Wizard.CanProceed | app/create/page.tsx:94-115 | the `canProceed` flag of the first three steps; `Wizard.CanProceedIff` characterises it |
| Wizard.CanProceedIff | app/create/page.tsx:94-115 | steps 0 and 2 may proceed exactly when their answer holds a non-whitespace character, and step 1 once a choice is made |
| Wizard.CreatePage.constructor | app/create/page.tsx:46-61 | the page starts at step 0 with the initial form |
| Wizard.CreatePage.AlwaysRendersAStep | app/create/page.tsx:86-151 | the page's step always renders a component |
| Wizard.CreatePage.GoNext | app/create/page.tsx:65 | the step becomes `NextStep` of the old one and the form stays |
| Wizard.CreatePage.GoBack | app/create/page.tsx:66 | the step becomes `PrevStep` of the old one and the form stays |
| Wizard.CreatePage.Restart | app/create/page.tsx:67-83 | restarting returns to step 0 and the initial form |
| Wizard.CreatePage.SetProjectName | app/create/page.tsx:92 | step 0 writes the project name only |
| Wizard.CreatePage.SetIsWebApp | app/create/page.tsx:102 | step 1 writes the website type only |
| Wizard.CreatePage.SetDescription | app/create/page.tsx:113 | step 2 writes the description only |
| Wizard.CreatePage.SetStepData | app/create/page.tsx:120-144 | a `setData` closure writes the slot the page bound into it when it rendered the step, whatever the current step is by the time it runs, and changes nothing else |
| Wizard.CreatePage.Deliver | app/create/page.tsx:120-144 | the loop over a data step's host calls, through the callbacks bound when step `rendered` was shown, ends in exactly the step and form `AfterCalls` gives |
| Wizard.AfterCallsSplit | app/create/page.tsx:65-144 | host calls act on the step and the form independently: the step follows `onNext`/`onBack`, the bound slot ends with the last data given to `setData`, and every other part of the form stays, so the order of `onNext` and `setData` does not matter |
| Wizard.DesignContinueStoresDesign | components/create-steps/ChooseDesignStep.tsx:238 | the design step's `onNext(); setData(palettes)` moves the page to the auth step, stores the palettes under `design` and leaves `auth` untouched |
| Wizard.WriteOneSlot | app/create/page.tsx:120-144 | writing one slot leaves every other slot as it was |
| Hosting.AddHostingStep.constructor | components/create-steps/AddHostingStep.tsx:13-14 | no domains and an empty input |
| Hosting.AddHostingStep.SetInput | components/create-steps/AddHostingStep.tsx:47 | typing replaces the input and leaves the domains |
| Hosting.AddHostingStep.AddDomain | components/create-steps/AddHostingStep.tsx:16-22 | Add appends the trimmed input if new and non-empty and clears the input; the domain invariant holds |
| Hosting.AddHostingStep.RemoveDomain | components/create-steps/AddHostingStep.tsx:24-26 | removing filters the domain out and keeps the input; the invariant holds |
| Hosting.AddHostingStep.KeyDown | components/create-steps/AddHostingStep.tsx:28-32 | Enter behaves exactly like Add, and any other key changes nothing |
| Hosting.AddHostingStep.Continue | components/create-steps/AddHostingStep.tsx:34-37 | Continue calls `setData(domains)` when supplied, then `onNext` |
| Hosting.RemoveDomainAt | components/create-steps/AddHostingStep.tsx:24-26 | removing a listed domain deletes it and keeps the others in order |
| Hosting.BlankInputAddsNothing | components/create-steps/AddHostingStep.tsx:16-22 | a blank input adds nothing and is left as typed |
| Storage.AddStorageStep.constructor | components/create-steps/AddStorageStep.tsx:19-21 | the question is shown, nothing is selected and the custom input is empty |
| Storage.AddStorageStep.YesClick | components/create-steps/AddStorageStep.tsx:23-25 | "Yes" opens the configuration and keeps the selection |
| Storage.AddStorageStep.BackClick | components/create-steps/AddStorageStep.tsx:98 | "Back" closes the configuration and keeps the selection |
| Storage.AddStorageStep.NoClick | components/create-steps/AddStorageStep.tsx:27-29 | "No" calls `onNext` directly |
| Storage.AddStorageStep.ToggleUseCase | components/create-steps/AddStorageStep.tsx:31-37 | a use case is toggled; the list stays duplicate-free |
| Storage.AddStorageStep.SetCustomUseCase | components/create-steps/AddStorageStep.tsx:83 | typing replaces the custom input only |
| Storage.AddStorageStep.AddCustomUseCase | components/create-steps/AddStorageStep.tsx:39-44 | the trimmed custom value is appended and the input cleared only if non-empty and new; the list stays duplicate-free |
| Storage.AddStorageStep.RemoveUseCase | components/create-steps/AddStorageStep.tsx:46-48 | removing filters one use case out; the list stays duplicate-free |
| Storage.AddStorageStep.Continue | components/create-steps/AddStorageStep.tsx:50-53 | Continue calls `onNext` only; the selection is never exported |
| Storage.CustomDuplicateIgnored | components/create-steps/AddStorageStep.tsx:39-44 | a custom value already selected after trimming changes nothing, and the input is kept |
| Payments.AddPaymentsStep.constructor | components/create-steps/AddPaymentsStep.tsx:29 | the selection starts as exactly `["credit_card"]` |
| Payments.AddPaymentsStep.HandleToggle | components/create-steps/AddPaymentsStep.tsx:31-35 | a method is toggled; the selection stays duplicate-free |
| Payments.AddPaymentsStep.Continue | components/create-steps/AddPaymentsStep.tsx:37-40 | Continue calls `setData(selected)` when supplied, then `onNext` |
| Payments.InitialToggleRoundTrip | components/create-steps/AddPaymentsStep.tsx:29-35 | from the initial selection, toggling credit card removes it, and toggling PayPal twice restores the selection |
| Payments.ToggleWithinMethods | components/create-steps/AddPaymentsStep.tsx:16-35 | the initial `["credit_card"]` holds only offered methods, and every checkbox toggle keeps the selection a duplicate-free list of the three offered methods, so at most three |
| AuthStep.ConfigureAuthStep.constructor | components/create-steps/ConfigureAuthStep.tsx:28 | the selection starts as exactly `["password"]` |
| AuthStep.ConfigureAuthStep.HandleToggle | components/create-steps/ConfigureAuthStep.tsx:30-34 | a provider is toggled; the selection stays duplicate-free |
| AuthStep.ConfigureAuthStep.Continue | components/create-steps/ConfigureAuthStep.tsx:191 | Continue calls `onNext` only; the step takes no `setData` |
| AuthStep.ToggleProviderTwice | components/create-steps/ConfigureAuthStep.tsx:30-34 | toggling an unselected provider selects it, and toggling it again restores the list |
| AuthStep.ToggleWithinProviders | components/create-steps/ConfigureAuthStep.tsx:15-34 | the initial `["password"]` holds only offered providers, and every checkbox toggle keeps the selection a duplicate-free list of the four offered providers, so at most four |
| Pricing.WithField | components/create-steps/ConfigurePricingStep.tsx:112-114 | `{...card, [field]: value}` sets the named text field only and keeps the features |
| Pricing.ChangeCard | components/create-steps/ConfigurePricingStep.tsx:112-114 | `handleChange`'s new cards; `Pricing.ChangeCardEffect` states the effect |
| Pricing.ChangeCardEffect | components/create-steps/ConfigurePricingStep.tsx:112-114 | a field edit changes only that field of card idx, keeps the card count and other cards, and is a no-op for an index out of range |
| Pricing.ChangeFeature | components/create-steps/ConfigurePricingStep.tsx:116-122 | `handleFeatureChange`'s new cards; `Pricing.ChangeFeatureEffect` states the effect |
| Pricing.ChangeFeatureEffect | components/create-steps/ConfigurePricingStep.tsx:116-122 | a feature edit replaces only feature j of card i; every card keeps its text fields and the length of its feature list |
| Pricing.DropIndex | components/create-steps/ConfigurePricingStep.tsx:128-130 | `cards.filter((_, i) => i !== idx)`; `Pricing.DropIndexEffect` states the effect |
| Pricing.DropIndexEffect | components/create-steps/ConfigurePricingStep.tsx:128-130 | removing drops exactly position idx and keeps the rest in order; an index out of range changes nothing |
| Pricing.ConfigurePricingStep.constructor | components/create-steps/ConfigurePricingStep.tsx:108-110 | the cards start as the one Basic card: $9, the default features, "/month", "Get started" |
| Pricing.ConfigurePricingStep.HandleChange | components/create-steps/ConfigurePricingStep.tsx:112-114 | the cards become `ChangeCard` of the old cards |
| Pricing.ConfigurePricingStep.HandleFeatureChange | components/create-steps/ConfigurePricingStep.tsx:116-122 | the cards become `ChangeFeature` of the old cards |
| Pricing.ConfigurePricingStep.HandleAdd | components/create-steps/ConfigurePricingStep.tsx:124-126 | Add appends the "New Plan" card at '19' with the default features |
| Pricing.ConfigurePricingStep.HandleRemove | components/create-steps/ConfigurePricingStep.tsx:128-130 | remove drops the card at idx |
| Pricing.ConfigurePricingStep.Continue | components/create-steps/ConfigurePricingStep.tsx:132-135 | Continue calls `setData(cards)` when supplied, then `onNext` |
| Pricing.InlineEdit.constructor | components/create-steps/ConfigurePricingStep.tsx:26-28 | the editor starts not editing, with the typed text equal to the value |
| Pricing.InlineEdit.ReceiveValue | components/create-steps/ConfigurePricingStep.tsx:34-36 | a render with a value different from the last one resets the typed text to it; a render with the same value keeps the typed text; the edit mode never changes |
| Pricing.InlineEdit.StartEditing | components/create-steps/ConfigurePricingStep.tsx:38-46 | a click enters edit mode and keeps the typed text |
| Pricing.InlineEdit.Type | components/create-steps/ConfigurePricingStep.tsx:66 | typing replaces the typed text only |
| Pricing.InlineEdit.FinishEditing | components/create-steps/ConfigurePricingStep.tsx:48-54 | finishing leaves edit mode and commits the typed text through `onChange` |
| Pricing.InlineEdit.KeyDown | components/create-steps/ConfigurePricingStep.tsx:67-72 | Enter finishes and commits the typed text; other keys commit nothing and keep the mode |
| Design.HexDigits | components/create-steps/ChooseDesignStep.tsx:33 | `toString(16).padStart` yields exactly the requested number of lower-case hexadecimal digits |
| Design.ParseHexDigits | components/create-steps/ChooseDesignStep.tsx:33 | the padded hexadecimal text reads back as the number modulo the digit range |
| Design.RandomHex | components/create-steps/ChooseDesignStep.tsx:32-34 | `randomHex()` is '#' followed by six digits |
| Design.RandomHexRoundTrip | components/create-steps/ChooseDesignStep.tsx:32-34 | the colour's digits read back as the drawn number, so different draws give different colours |
| Design.RandomPalette | components/create-steps/ChooseDesignStep.tsx:36-49 | a random palette is named "Custom" and has five shades, the middle one being its colour |
| Design.Recolor | components/create-steps/ChooseDesignStep.tsx:77-78 | `{ ...p, hex: color, shades: [color, ...p.shades.slice(1)] }`; its effect is part of `Design.RecolorAtEffect` |
| Design.RecolorAt | components/create-steps/ChooseDesignStep.tsx:77-78 | `handleColorChange`'s new palettes; `Design.RecolorAtEffect` states the effect |
| Design.RecolorAtEffect | components/create-steps/ChooseDesignStep.tsx:77-78 | recolouring palette idx sets its colour and first shade, keeps its name and other shades, and keeps the other palettes and their count |
| Design.ChooseDesignStep.constructor | components/create-steps/ChooseDesignStep.tsx:58-61 | the three stock palettes, the first selected, the dark theme and no picker open |
| Design.ChooseDesignStep.Shuffle | components/create-steps/ChooseDesignStep.tsx:64-70 | shuffling keeps the first palette, adds two random ones, and selects the old first colour |
| Design.ChooseDesignStep.AddColor | components/create-steps/ChooseDesignStep.tsx:72-75 | adding appends one random palette and keeps the earlier ones |
| Design.ChooseDesignStep.ColorChange | components/create-steps/ChooseDesignStep.tsx:77-81 | a colour change recolours palette idx, selects the colour and closes the picker |
| Design.ChooseDesignStep.SelectCard | components/create-steps/ChooseDesignStep.tsx:126 | clicking a card selects its colour and opens its picker |
| Design.ChooseDesignStep.PickerBlur | components/create-steps/ChooseDesignStep.tsx:147 | leaving the picker closes it and changes nothing else |
| Design.ChooseDesignStep.ToggleTheme | components/create-steps/ChooseDesignStep.tsx:88 | the theme button swaps dark and light |
| Design.ChooseDesignStep.Continue | components/create-steps/ChooseDesignStep.tsx:238 | Continue does nothing while no colour is selected, and otherwise calls `onNext` before `setData(palettes)` |
| Design.ShuffleShape | components/create-steps/ChooseDesignStep.tsx:64-70 | a shuffled list has exactly three palettes, the old first one followed by two "Custom" palettes of five shades |
| Initials.NonEmpty | app/settings/page.tsx:21 | the words kept are exactly the non-empty pieces: every kept word is a non-empty piece, and every non-empty piece is kept |
| Initials.NonEmptyAppend | app/settings/page.tsx:21 | dropping the empty pieces distributes over concatenation, so it keeps the pieces' order |
| Initials.FirstCharsOfNonEmpty | app/settings/page.tsx:21 | one first character per non-empty piece, in order |
| Initials.EmptyPieceIgnored | app/settings/page.tsx:21 | an empty piece, whose `n[0]` is undefined, joins as nothing |
| Initials.GetInitials | app/settings/page.tsx:20-22 | `getInitials`, shared with components/sections/navbar2.tsx:35-37; `Initials.InitialsPerWord`, `Initials.InitialsUpper` and `Initials.InitialsBound` characterise it |
| Initials.InitialsPerWord | app/settings/page.tsx:20-22 | the initials are the upper-cased first characters of the non-empty space-separated words, in order |
| Initials.InitialsUpper | app/settings/page.tsx:21 | no initial is a lower-case letter |
| Initials.LeadingSpaceIgnored | components/sections/navbar2.tsx:36 | a leading space adds no character |
| Initials.SingleWord | app/settings/page.tsx:21 | a single word gives its upper-cased first letter, and an empty name gives "" |
| Initials.InitialsBound | app/settings/page.tsx:21 | the initials are never longer than the number of spaces plus one |
| Initials.NonEmptyShorter | app/settings/page.tsx:21 | dropping empty pieces never lengthens the list |
| Initials.NavbarAvatar | components/sections/navbar2.tsx:61 | initials are shown exactly when not loading, signed in and with a non-empty name, and they are `getInitials(name)` |
| Initials.SpacesOnlyName | components/sections/navbar2.tsx:35-37 | a name of spaces only shows empty initials, not the user icon |
| ProjectInfo.NextIcon | components/create-steps/BasicProjectInfoStep.tsx:47-54 | the icon index advances as (i + 1) mod 3 and stays within 0..2 |
| ProjectInfo.IconCycle | components/create-steps/BasicProjectInfoStep.tsx:47-54 | every tick changes the icon, and three ticks return to the start |
| ProjectInfo.ButtonDisabled | components/create-steps/BasicProjectInfoStep.tsx:85-138 | the `disabled` flags of the two Continue buttons; `ProjectInfo.ButtonDisabledIff` characterises them |
| ProjectInfo.ButtonDisabledIff | components/create-steps/BasicProjectInfoStep.tsx:85 | the first button is disabled exactly when the name is all whitespace, and the second exactly when no type is chosen |
| ProjectInfo.BasicProjectInfoStep.constructor | components/create-steps/BasicProjectInfoStep.tsx:38-39 | the step machine starts at question 0 with icon 0 |
| ProjectInfo.BasicProjectInfoStep.HandleNext | components/create-steps/BasicProjectInfoStep.tsx:56-62 | Next advances while below the last question and calls `onNext` on it, so the step never exceeds 2 |
| ProjectInfo.BasicProjectInfoStep.KeyPress | components/create-steps/BasicProjectInfoStep.tsx:63-68 | Enter advances from question 0 with a non-blank name; it calls `onNext` at question 2 with a non-blank description; it does nothing otherwise, including at question 1 |
| ProjectInfo.BasicProjectInfoStep.IconTick | components/create-steps/BasicProjectInfoStep.tsx:47-54 | on question 1 each tick advances the icon index and keeps the question |

## Left out

- ReactFlow internals are not modelled: dragging (`onNodesChange`, `onEdgesChange`), keyboard deletion, `fitView`, the viewport and handle styling. They belong to the rendering library. Node positions are values that the handlers must keep, and they do. Keyboard deletion (Backspace) goes through `onNodesChange`/`onEdgesChange` (AddDatabaseStep.tsx:193-194, 358-359): it can remove a selected edge, and it can remove a node while its table stays in `tables`. The second breaks `SchemaEditor.Synced` and `SchemaEditor.Integrity`, and that path lies outside what the model covers.
- JSX rendering and every visual detail are not modelled. Only the event handlers, the state and the conditions that enable controls or choose components are.
- Strings are ASCII only. Unicode case mapping, Unicode whitespace and UTF-16 indexing are not modelled.
- The progress bar's floating-point percentage is not modelled.
- Message texts, HTTP headers, CORS, logging and the `json.dumps` of the event are not modelled. The handlers' answers are datatypes that carry the outcome and its data; the SQL verdict keeps its message. `format_response` also returns the whole `columnMetadata` list unchanged; the model keeps only each entry's optional name, which is all the row building reads.
- `Math.random()` and `Date.now()` are not modelled; the drawn numbers and the clock are parameters.
- Database and AWS I/O is not modelled: `execute_sql`, `create_user_record`, `create_signup_event`, `get_database_config`, SSM and the RDS Data API. The database is an abstract outcome (records found, lookup raises, insert raises, execute fails).
- The sign-up response's user and event records, the user agent, IP and timestamp are not modelled. They come from the database and the clock; the model keeps the normalised email and display name that are inserted.
- `json.loads` and Python's `str(field)` are not modelled; they are the supplied `loads` and `render`.
- SchemaEditor.Editor.Connect: requires both endpoints to be existing tables. `onConnect` itself does not check this; the rendering surface only offers handles of drawn nodes.
- SchemaEditor.Editor.AddTable: requires the clock's table id to be new. Ids from `Date.now()` are assumed to be distinct.
- SchemaEditor.Editor.AddFieldTo: requires the clock's field id to be new in the addressed table, for the same reason.
- SchemaEditor.Editor.ApplyFieldEdit: requires the edit to keep field ids distinct. Every field handler passed to it does.
- SchemaEditor.Editor.DeleteTable: models the corrected handler, which also discards a pending edge touching the table. The handler as written is `SchemaEditor.DeleteTableAsWritten`, characterised by `SchemaEditor.DeleteTableAsWrittenPendingIff` and exhibited by `SchemaEditor.DeleteThenSubmitAsWrittenDangles` (see Findings).
- SchemaEditor.Editor.EdgeClick: does not model the `|| '1:1'` fallback of `handleEdgeClick`. Every edge the editor creates carries a cardinality, so the fallback cannot fire.
- The callbacks bound into each node's data on refresh are not modelled. The model calls the editor's handlers directly as methods.
- In `BasicProjectInfoStep`, question 2 (the description) renders no input of its own. The component is also not used by `app/create/page.tsx`. It is modelled anyway from its handlers.
- Pricing.ConfigurePricingStep.HandleChange: models `handleChange` on the text fields only. No control calls it with `'features'`, which `HandleFeatureChange` covers.
- `ConfigureAuthStep` is offered a `setData` by the wizard page but takes none. `Wizard.CreatePage.SetStepData` models the page's side, and `AuthStep.ConfigureAuthStep.Continue` models that the step calls only `onNext`.
- In the settings page, only `getInitials` is modelled. Account deletion, sign-out and the loading branches are Amplify calls and navigation.
- Amplify/Cognito authentication, the CDK stacks, the Next.js API routes and the other Lambdas are not part of this model.

## Findings

| source | as written | input that shows it | evidently intended | confidence | as-written member | corrected member |
|---|---|---|---|---|---|---|
| components/create-steps/AddDatabaseStep.tsx:246-250 | `handleDeleteTable` filters tables, nodes and edges but leaves `pendingEdge` | connect table-1 to a new table, delete table-1, then submit the cardinality form: an edge to a table that no longer exists is committed | a pending edge that touches the deleted table is discarded with it, so no edge can refer to a missing table | low, not executed; the handler is not wired to any control | SchemaEditor.DeleteTableAsWrittenPendingIff | SchemaEditor.DeleteKeepsIntegrity |
