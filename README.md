# flow: a verified model of the action-list graph builder

This project models the core of `flow`, a tool that reads workflow definitions out of a
ResWare case-management database and draws them as Graphviz dot digraphs. An *action
list* is an ordered list of *groups*. Each group holds *actions*, which can be started
and completed, and *triggers*, which are external events that set off an *affect*. An
affect either offsets or auto-completes another action, or creates an action or a
group. Actions also send *email* templates when they start or complete.

The modules follow the repository's files:

| module | file | what it covers |
|---|---|---|
| `Wrappers`, `Seqs` | (shared) | `Option`/`Result`, order-preserving de-duplication, `str(int)` |
| `Db` | `db.py` | table classes and their lookup keys, NULL-aware column parsing, `load` into a single-valued or a one-to-many dictionary |
| `ReswareModel` | `resware_model.py` | the ResWare tables and their parsers, and the placeholder clean-up of email partner restrictions in `Models.__init__` |
| `Deps` | `deps.py` | `escape_name`, the dot `Vertex` and its attribute text, and the depth-first `print_nodes_and_deps` / `digraph` generators |
| `Graph` | `graph.py` (building) | classifying affect rows, building triggers, actions, groups and the action list, and registering them in the context |
| `GraphPartners` | `graph.py` (`build_partners`) | the two passes that build partners with their types and auto-adds |
| `GraphWalk` | `graph.py` (walking and drawing) | resolving affects, `_walk` reachability, `find_roots`, and the de-duplicated dot output of `generate_digraph_from_action_list` |
| `Database` | `database.py` | the older column-by-column affect classifier, the action-dependency collector, `build_vertices`, `_build_dependencies` and the note lines |
| `Tree` | `web/src/Tree.js` | `attachActionsToAffects` over the JSON action list, and the choice of the detail action |

The model is written in two styles:

* **Pure functions.** Code that computes values (parsers, classifiers, escapers, renderers) is a
  set of pure functions with lemmas about them.
* **Imperative methods.** Code that mutates in place is a set of methods proved against those
  functions:
  * the build loops, the context dictionaries, and `_walk`'s visited set;
  * the emitter's `yielded` set;
  * the in-place clean-up of `email_partner_restrictions`;
  * `build_vertices`;
  * the JavaScript lookup tables and `item.action` assignments.

Every error Python would raise is an `Err` value of a `Result`: a `KeyError` on a models table,
`ColumnMissing`, `ParsingFailed`, a failed `assert`, and an `AttributeError`.

The model follows the code in three places where it departs from the system's design
description:

* **Affected ids.** `graph.py:222` tests only the affected group id before building an
  offset or complete affect. The action id may be NULL; such an affect then never resolves.
* **Create affects.** `graph.py:233-234` builds a create affect from `created_action_id`, a
  field the affect rows do not have. `Graph.BuildAffects` therefore fails with
  `NoAttribute("created_action_id")` on every row with a created group id.
* **Email ids.** `graph.py:259-270` passes an email's group id and action id positionally, in
  the opposite order to the `Email` fields. `Graph.EmailFor` keeps that swap, which only
  changes the email's node name.

The design also describes two things the code does not have: a pruning pass for empty groups
and a missed-reference set. Both are absent from the model too.

## Model

| member | source | states |
|---|---|---|
| Seqs.DedupElements | graph.py:349-356 | the de-duplicated lines are exactly the lines produced |
| Seqs.DedupNoDuplicates | graph.py:349-356 | no line is emitted twice |
| Seqs.DedupPrefix | graph.py:349-356 | de-duplication is prefix-monotone: the output for a prefix is a prefix of the output, so lines stream in order of first occurrence |
| Seqs.DedupOfDistinct | graph.py:349-356 | a sequence without repeats passes through unchanged |
| Seqs.DedupIdempotent | graph.py:349-356 | de-duplicating twice is the same as once |
| Seqs.Digits | graph.py:22 | `str(n)` of a non-negative id is a non-empty string of decimal digits |
| Seqs.DigitsValueOfDigits | graph.py:22 | reading `str(n)` back as a decimal number gives n |
| Seqs.DigitsInjective | graph.py:22 | two ids have the same `str()` iff they are equal, so distinct ids give distinct vertex names |
| Db.ParseColOutcomes | db.py:60-75 | parse_col's outcomes, each as an iff: a missing column gives ColumnMissing; NULL in a non-nullable column gives ColumnMissing; a parser raising ColumnMissing passes it on; any other raising parser gives ParsingFailed with the value; otherwise the result is None for a NULL when the parser is the field type, and the parser's value in every other case |
| Db.ParseColNullable | db.py:65-71 | for any parser, a nullable NULL is returned as None when the parser is the field's type; with a parser of its own, the result is what that parser makes of the NULL |
| Db.ColumnFields | db.py:79 | only fields that carry a column are parsed, and none is added |
| Db.ColumnFieldsSingle | db.py:79 | a single field is kept iff it carries a column |
| Db.ColumnFieldsAppend | db.py:79 | the kept fields of a concatenation are those of each part, in order, so the result is the in-order filter of the fields |
| Db.Args | db.py:79 | the constructor arguments are the parsed columns in field order; the call fails iff some column fails, and then with the first failure |
| Db.RecordOf | db.py:79 | for a class whose fields all carry a column (see "Left out"), the record's attributes are exactly the fields' names |
| Db.RecordOfValues | db.py:79 | with distinct field names, each attribute holds its own column's parsed value |
| Db.RecordOfAt | db.py:79 | the attribute of field i holds the i-th argument |
| Db.CreateFromDbFields | db.py:78-79 | create_from_db succeeds iff every column field parses; each attribute then holds its parse, and an error is the first field's failure |
| Db.ResolveLookupDefault | db.py:27-31 | an explicit lookup is kept; without one the key is `id` iff the class has an `id` field, and otherwise tableclass raises |
| Db.AttrValues | db.py:37-38 | a tuple lookup reads every named attribute in order; it fails with the first name the record lacks |
| Db.CreateKeyTuple | db.py:33-38 | a tuple key has one component per lookup field, in order, and depends only on those fields |
| Db.EntriesAt | db.py:90-92 | every row becomes its (key, instance) entry, in order |
| Db.Load | db.py:82-98 | the loop builds exactly the dictionary the specification function gives for the rows |
| Db.LoadManyIsGrouped | db.py:86-94 | a one-to-many load fails iff some row fails; otherwise it maps each key to its rows' instances in row order |
| Db.LoadSingleIsUnique | db.py:95-97 | a single-valued load succeeds iff every row parses and no key repeats; the result is then the unique key-to-instance map |
| Db.GroupedKeys | db.py:93-94 | the grouped dictionary's keys are exactly the keys of the rows |
| Db.GroupedIsRecordsFor | db.py:93-94 | each key maps to the sub-list of instances with that key, in row order |
| Db.RecordsForAbsent | db.py:86-87 | a key no row has reads as the empty list of the defaultdict |
| Db.GroupedTotal | db.py:93-94 | no instance is lost or duplicated: the lists' lengths add up to the number of rows |
| Db.UniqueMapsEntries | db.py:95-97 | with distinct keys every row's instance is found under its key, and the keys are exactly the rows' keys |
| Db.UniqueFailsOnRepeat | db.py:96 | the single-valued load's assert fails iff a key repeats |
| ReswareModel.TaskValue | resware_model.py:13-15 | START is 1 and COMPLETE is 2 |
| ReswareModel.TaskOf | resware_model.py:13-15 | Task(v) is START iff v equals 1 and COMPLETE iff it equals 2; any other value raises (floats aside, see "Left out") |
| ReswareModel.TaskRoundTrip | resware_model.py:13-15 | converting a task to its value and back gives the task |
| ReswareModel.EmailStartCompleteOutcomes | resware_model.py:137-138 | the parser never raises; a truthy flag is COMPLETE and a falsy one START |
| ReswareModel.GroupPartnerIncludeOutcomes | resware_model.py:166-168 | type id 1 includes, type id 2 excludes, and any other value fails the assert (floats aside, see "Left out") |
| ReswareModel.AffectFieldsColumns | resware_model.py:47-56 | every affect field carries a column |
| ReswareModel.PairEntry | db.py:37-38 | a two-field lookup keys an instance by the pair of its two attributes |
| ReswareModel.ScalarEntry | db.py:33-35 | a one-field lookup keys an instance by that attribute, which every loaded instance has |
| ReswareModel.GroupActionAffectKey | resware_model.py:201-205 | a group-action affect is keyed by (group_id, action_id) |
| ReswareModel.TriggerKey | resware_model.py:148-153 | a trigger is keyed by its group id |
| ReswareModel.ActionEmailKey | resware_model.py:141-145 | an action email is keyed by its action id |
| ReswareModel.GroupActionPartnerRestrictionRejects | resware_model.py:171-178 | a partner add type other than 1 or 2 makes loading the restriction row fail |
| ReswareModel.Many | db.py:86-87 | reading a one-to-many table gives the key's list, or the empty list for an absent key |
| ReswareModel.RealAppend | resware_model.py:265-267 | dropping placeholders distributes over concatenation |
| ReswareModel.RealMembers | resware_model.py:265-267 | the surviving restrictions are exactly those with a partner id |
| ReswareModel.RealUnchanged | resware_model.py:265-267 | a list is left unchanged iff it has no placeholder |
| ReswareModel.RealShorter | resware_model.py:265-267 | dropping placeholders never lengthens a list |
| ReswareModel.RemoveFirst | resware_model.py:267 | `list.remove` of a present element makes the list one shorter |
| ReswareModel.RemoveFirstAfter | resware_model.py:265-267 | when the walk over the copy reaches a placeholder, the placeholders before it are gone and `remove` deletes exactly this one |
| ReswareModel.WithoutPlaceholdersMeaning | resware_model.py:264-270 | after the clean-up no list holds a placeholder and none is empty; an email stays iff it had a real partner, and its list is its real partners in order |
| ReswareModel.WithoutPlaceholdersIdempotent | resware_model.py:264-270 | cleaning an already cleaned table changes nothing |
| ReswareModel.SurvivingMembers | resware_model.py:268-270 | the emails left in the dictionary's order are exactly the loaded ones with a real partner |
| ReswareModel.SurvivingDistinct | resware_model.py:268-270 | deleting keys keeps the key order free of repeats |
| ReswareModel.Finished | resware_model.py:264-270 | once every email is visited the table is the cleaned table, and its keys are the surviving order |
| ReswareModel.PartlyAll | resware_model.py:264 | before any email is visited the table is as loaded |
| ReswareModel.VisitStep | resware_model.py:264-270 | visiting an email replaces its list by the real partners, or deletes the key when none is left, and touches no other email |
| ReswareModel.OrderStep | resware_model.py:268-270 | deleting a key removes it from the key order and keeps the other keys' order |
| ReswareModel.EmailPartnerRestrictions.constructor | resware_model.py:263 | the loaded table and its key order |
| ReswareModel.EmailPartnerRestrictions.DropFromList | resware_model.py:265-267 | removing placeholders while walking a copy leaves exactly the real partners in order |
| ReswareModel.EmailPartnerRestrictions.DropPlaceholders | resware_model.py:264-270 | the table becomes the cleaned table and the key order drops exactly the deleted emails |
| Deps.SpecialsMembership | deps.py:6 | the escaped characters are exactly the 26 listed |
| Deps.ReplaceThenUnderscore | deps.py:6-7 | one more `replace(c, '_')` is the same as underscoring one more character |
| Deps.ReplaceEachIsUnderscored | deps.py:6-7 | the replace loop turns each listed character into `_` and leaves every other character alone |
| Deps.ExpandThenUnderscore | deps.py:5-7 | replacing `&` by `and` and then the specials equals escaping each character on its own |
| Deps.EscapeNameAgrees | deps.py:4-8 | escape_name as written (whole-string replaces) equals the character-by-character escaper |
| Deps.EscapeNameAppend | deps.py:4-8 | escaping distributes over concatenation |
| Deps.EscapeNameClean | deps.py:4-8 | an escaped name contains no `&` and no listed character |
| Deps.EscapeNameOfClean | deps.py:4-8 | a clean name is left unchanged |
| Deps.EscapeNameIdempotent | deps.py:4-8 | escaping an escaped name changes nothing |
| Deps.EscapeNameLength | deps.py:4-8 | the result is the input's length plus two for every `&` |
| Deps.EscapeNameKeepsOthers | deps.py:4-8 | any character that is neither `&` nor listed is kept in place |
| Deps.SetAttr | deps.py:19-24 | `attrs[k] = v` makes k read v, leaves every other key, and adds an entry only for a new key |
| Deps.ApplySetsOther | deps.py:17-24 | an attribute no update names keeps its value from dot_attrs |
| Deps.UpdateKeys | deps.py:20-24 | a given shape sets `shape`; a given fill colour sets `style` then `fillcolor`; otherwise nothing is set |
| Deps.ApplySetsSplit | deps.py:17-24 | the attributes are dot_attrs updated by the label, then the shape, then the fill |
| Deps.QuoteLabelEscapes | deps.py:13 | every double quote of the label is preceded by a backslash, and the label grows by one per quote |
| Deps.LabelAttrFor | deps.py:18-19 | the label attribute is set iff the escaped name differs from the label |
| Deps.LabelAttrIff | deps.py:13-19 | the vertex has a label attribute iff its name differs from the quoted label, and that attribute is the quoted label |
| Deps.ShapeAndFillFor | deps.py:20-24 | a given shape is the shape attribute; a given fill colour is the fillcolor, with style filled |
| Deps.ShapeAndFillAttrs | deps.py:20-24 | the same for a vertex's attributes |
| Deps.VertexTextBare | deps.py:29-35 | a vertex renders as just `name;` iff it has no attributes |
| Deps.Vertex.constructor | deps.py:12-32 | the name is the escaped name (or label), the attribute text renders the attributes, and the dependencies are those given |
| Deps.Texts | deps.py:42-45 | every traced node or edge becomes one indented line, in order |
| Deps.VisitingStart | deps.py:39-42 | marking a node visited and printing it starts a well-formed trace |
| Deps.VisitingEnd | deps.py:43-45 | once every dependency is done, the trace prints each node once, each edge after both its nodes, and every dependency edge of the nodes it visited |
| Deps.TraceStep | deps.py:44-45 | appending a dependency's trace and its edge keeps nodes unique and edges after their nodes |
| Deps.ClosureStep | deps.py:43-45 | nodes visited in the dependency's own trace keep all their dependency edges |
| Deps.VisitingStep | deps.py:43-45 | handling one more dependency keeps the visit invariant |
| Deps.EdgesSoundAppend | deps.py:43-45 | joining two traces whose edges are real dependencies keeps every edge a real dependency |
| Deps.SoundStart | deps.py:41-42 | the first line is the start vertex itself, reachable from itself |
| Deps.ReachableStep | deps.py:43-44 | a vertex reachable from a dependency of a vertex is reachable from that vertex |
| Deps.SoundStep | deps.py:43-45 | recursing into a dependency and printing its edge keeps every edge a real dependency and every printed vertex reachable from the start |
| Deps.PrintNodesAndDeps | deps.py:38-45 | the generator visits the node; every node it prints is new, printed once and before any edge naming it, and every visited node's dependencies are visited with their edges; conversely every edge line `d -> v` it prints has d among v's dependencies, and every node it prints is reachable from the start node |
| Deps.DigraphStep | deps.py:51-52 | each goal's trace extends the shared one and keeps it well formed |
| Deps.SoundFromStep | deps.py:51-52 | appending one goal's sound trace keeps the body's edges real and its nodes reachable from some goal |
| Deps.BodyStep | deps.py:51-52 | appending one goal's trace keeps the body well formed, complete and sound |
| Deps.PrintGoal | deps.py:51-52 | one turn of the goal loop extends the body, keeps it well formed, complete and sound, and prints the goal |
| Deps.Digraph | deps.py:48-53 | the output is the header, the trace lines and the footer; every goal is printed, no node twice, each edge after its nodes, and every dependency edge of a printed node appears; conversely every printed edge `d -> v` has d among v's dependencies, and every printed node is reachable from some goal |
| Graph.NodeNameIsIdentifier | graph.py:20-22 | a node name starts with `N` and is already escaped, so escaping it again keeps it |
| Graph.Find | graph.py:244 | a models-table lookup returns the entry iff the id is present, and otherwise fails with a KeyError naming the table and id |
| Graph.Context.constructor | graph.py:290 | a fresh context has no actions and no groups |
| Graph.BuildExternalAction | graph.py:209-218 | a trigger's external action is a DocumentAdded when it names a document type, otherwise an ActionEventReceived when it names an event, otherwise plain; it fails exactly on a missing table entry |
| Graph.BuildAffects | graph.py:221-234 | the row fails iff it names a created group; otherwise at most two affects, each targeting the row's affected group and action |
| Graph.BuildAffectsKinds | graph.py:221-232 | an offset affect is built iff a group and an offset are set; a complete affect iff a group is set and auto-complete is true |
| Graph.BuildTriggers | graph.py:237-240 | one trigger per affect of the row, each carrying the row's external action |
| Graph.AffectListsOk | graph.py:251-255 | collecting an action's affects fails iff some row with a task names a created group |
| Graph.AddAffectsSide | graph.py:252-255 | a START row extends only the start list and a COMPLETE row only the complete list |
| Graph.AffectListsRouting | graph.py:251-255 | an affect is in the start (complete) list iff it comes from a row whose task is START (COMPLETE) |
| Graph.RoutedToAppend | graph.py:251-255 | the affects routed to a task from two row lists are those of the first, then those of the second |
| Graph.AffectListsFilter | graph.py:251-255 | each affect list is exactly the in-order filter of the rows by task: the affects each START (COMPLETE) row built, in row order |
| Graph.EmailFor | graph.py:258-270 | an email row builds iff its template exists, with the action's ids passed in the builder's (swapped) order |
| Graph.EmailLists | graph.py:257-271 | every email row lands in exactly one of the two lists |
| Graph.EmailListsMeaning | graph.py:257-271 | the email lists fail iff some template is missing; otherwise each list holds exactly the emails of its task's rows |
| Graph.EmailsForAppend | graph.py:257-271 | the emails of a task from two row lists are those of the first, then those of the second |
| Graph.EmailListsFilter | graph.py:257-271 | each email list is exactly the in-order filter of the rows by task, one email per row carrying the template's name and the row's task |
| Graph.ActionFromFields | graph.py:243-272 | a built action has the group-action's group id and the action's id, name and dynamic flag; every email carries the swapped ids, start emails have task START and complete emails COMPLETE |
| Graph.ActionsFromAt | graph.py:279-280 | a group's actions are its group-action rows' actions, in order |
| Graph.GroupsFromAt | graph.py:292-293 | the list's groups are its rows' groups, in order |
| Graph.RegisterAppend | graph.py:250 | registering two runs of actions equals registering them one after the other |
| Graph.RegisterMeaning | graph.py:249-250 | after registering, every action is found under its own key, the last action is the one under its key, and no other key is added |
| Graph.RegisterGroupsMeaning | graph.py:278 | after registering, every group is found under its id |
| Graph.AllActionsMembers | graph.py:292-293 | the actions of a list are exactly the actions of its groups |
| Graph.ContextOfList | graph.py:286-295 | the built context finds every action of every group under its key, and every group under its id |
| Graph.BuildAction | graph.py:243-272 | the method returns the specified action and registers it under its key, leaving the groups unchanged |
| Graph.CollectAffects | graph.py:251-255 | the loop builds the specified start and complete affect lists |
| Graph.CollectEmails | graph.py:257-271 | the loop builds the specified start and complete email lists |
| Graph.BuildGroup | graph.py:275-283 | the method returns the specified group, registers it and all its actions, and nothing else |
| Graph.BuildActions | graph.py:279-280 | the loop builds the specified actions and registers exactly them |
| Graph.CollectTriggers | graph.py:281-282 | the loop builds the specified triggers |
| Graph.BuildActionList | graph.py:286-295 | a fresh context holding exactly the list's actions and groups, and the specified action list |
| GraphPartners.TypesOf | graph.py:314-315 | a partner's types are the types of its rows, in order; the lookup fails iff a type id is unknown |
| GraphPartners.Initial | graph.py:313-316 | the first pass makes a partner with the model's id and name, its types, and no auto-adds |
| GraphPartners.FirstPass | graph.py:311-316 | the partners dictionary has exactly the model partners, each its initial form; it fails iff some partner's types fail |
| GraphPartners.AutoAddEntry | graph.py:320-321 | an auto-add row gives (our type, (partner to add, its type)); it fails iff a type or the partner is unknown |
| GraphPartners.AutoAddsFrom | graph.py:319-322 | collecting auto-adds fails iff some row fails |
| GraphPartners.AutoAddsGrouped | graph.py:319-322 | each type maps to the auto-adds of its rows, in row order, and no type maps to an empty list |
| GraphPartners.SecondPass | graph.py:318-322 | the second pass keeps the same partners and fills each one's auto-adds, failing iff some partner's rows fail |
| GraphPartners.BuildPartnersMeaning | graph.py:310-323 | build_partners succeeds iff every partner's types and auto-adds resolve; then every partner has its id, name, types and auto-adds, and the partner types are returned as loaded |
| GraphPartners.CollectTypes | graph.py:314-315 | the loop builds the specified type list |
| GraphPartners.CollectAutoAdds | graph.py:319-322 | the loop builds the specified auto-add dictionary |
| GraphPartners.BuildTypedPartners | graph.py:311-316 | the first loop builds the specified partners dictionary |
| GraphPartners.FillAutoAdds | graph.py:318-322 | the second loop fills in the specified auto-adds |
| GraphPartners.BuildPartners | graph.py:310-323 | the method returns what the specification gives |
| GraphWalk.Resolve | graph.py:30-33 | `affect.action` is the context's action under (group_id, action_id) iff that key exists; otherwise it is a KeyError |
| GraphWalk.AffectAction | graph.py:30-43 | through the as-written InitVar context every lookup raises AttributeError; through a stored context it is Resolve |
| GraphWalk.ReachUnique | graph.py:328-345 | the least closed set holding the roots is unique, so the walk's result does not depend on root order |
| GraphWalk.ReachIdempotent | graph.py:328-335 | walking again from everything reached reaches nothing new |
| GraphWalk.Walk | graph.py:328-335 | _walk adds the action and what it reaches, and nothing beyond the least closed set; an action already reached is left alone |
| GraphWalk.WalkEach | graph.py:332-335 | walking an affect list reaches every target and stays inside every closed superset |
| GraphWalk.WalkAffect | graph.py:333 | one affect's target is resolved and walked, or the KeyError propagates |
| GraphWalk.ReachableFrom | graph.py:343-345 | the reachable set is the least closed set holding the roots, and it is found whenever such a set exists |
| GraphWalk.RootIds | graph.py:389-390 | without an argument the root external actions are 121, 14 and 154; otherwise they are the given keys |
| GraphWalk.RootsOfMeaning | graph.py:391-396 | with a stored context, find_roots succeeds iff every matching trigger resolves, and the roots are exactly the targets of the matching triggers |
| GraphWalk.RootsInContext | graph.py:391-396 | every root is an action of the context |
| GraphWalk.AsWrittenRootsFail | graph.py:391-396 | as written, find_roots raises iff some trigger matches, and otherwise returns the empty set |
| GraphWalk.FindRoots | graph.py:387-396 | the loops give find_roots over all the list's triggers with the default or given external actions |
| GraphWalk.WordRun | graph.py:325 | the prefix scan stops at the first non-word character |
| GraphWalk.StripPrefixMeaning | graph.py:325 | a leading `word: ` is removed, and only one of the form word characters, colon, space |
| GraphWalk.TriggerLines | graph.py:360-372 | a trigger's lines fail iff its affect does not resolve, and are empty iff its target was not reached |
| GraphWalk.AffectEdges | graph.py:379-380 | one edge per affect, from the action to its target's node name; it fails iff some target is missing |
| GraphWalk.EmailLinesAt | graph.py:381-383 | each email gives its vertex line and then its edge from the action |
| GraphWalk.ActionLines | graph.py:373-383 | an unreached action gives no line; a reached one gives its vertex, one edge per affect and two lines per email |
| GraphWalk.TriggersLinesOrigin | graph.py:359-372 | every trigger line comes from a trigger whose target is reached, and every such trigger's lines are there |
| GraphWalk.ActionsLinesOrigin | graph.py:373-383 | every action line comes from a reached action, and every reached action's lines are there |
| GraphWalk.CandidatesMeaning | graph.py:358-383 | the candidate lines are exactly the lines of reached triggers and actions |
| GraphWalk.DigraphShape | graph.py:347-384 | the output opens with the header and closes with `}`; between them no line repeats and the lines are exactly those of reached triggers and actions |
| GraphWalk.Emit | graph.py:349-356 | emit yields a line iff it was not yielded before, and records it |
| GraphWalk.Emit2 | graph.py:363-372 | emitting a vertex and then an edge keeps the de-duplication invariant |
| GraphWalk.EmitTrigger | graph.py:360-372 | the loop body emits the trigger's lines, de-duplicated, or propagates its KeyError |
| GraphWalk.TriggersLinesStep | graph.py:359-372 | a failing trigger fails the whole group; otherwise its lines come first |
| GraphWalk.EmitTriggers | graph.py:359-372 | the trigger loop emits all the group's trigger lines, de-duplicated |
| GraphWalk.EmitAffectEdges | graph.py:379-380 | the affect loop emits every edge, de-duplicated |
| GraphWalk.EmitAffectEdgeAt | graph.py:380 | one affect's edge is emitted, or the lookup error propagates |
| GraphWalk.EmitEmail | graph.py:381-383 | one email's vertex and edge are emitted |
| GraphWalk.EmitEmails | graph.py:381-383 | the email loop emits every email's two lines |
| GraphWalk.EmitAction | graph.py:373-383 | an action's lines are emitted, de-duplicated, or its error propagates |
| GraphWalk.EmitActions | graph.py:373-383 | the action loop emits all the group's action lines |
| GraphWalk.EmitActionAt | graph.py:373-383 | one action of the loop is emitted and the rest remain |
| GraphWalk.EmitGroup | graph.py:359-383 | a group's trigger lines and then its action lines are emitted |
| GraphWalk.EmitDigraph | graph.py:347-384 | the generator's output is the specified de-duplicated digraph |
| GraphWalk.GenerateDigraph | graph.py:338-384 | a successful output is the digraph of the least closed set of the chosen roots; with default roots, a failing find_roots fails the call; roots whose walk reaches a missing action fail the call; and whenever the roots resolve and the walk succeeds, the result is exactly the emission of that digraph, failing only where the emission fails |
| Database.AllTruthyMeaning | database.py:107-109 | `all` holds iff every required column is truthy |
| Database.AnyTruthyMeaning | database.py:107-109 | `any` holds iff some required column is truthy |
| Database.IsAffectMeaning | database.py:106-109 | with AND every required column is present and truthy, with OR some is |
| Database.GetAffectTypesMembers | database.py:140-144 | a type is returned iff its mapping entry matches the row, and no more types than entries |
| Database.AffectMappingIncreasing | database.py:112-137 | the mapping lists the affect types in strictly increasing enum order |
| Database.GetAffectTypesOrdered | database.py:140-144 | the types come out in mapping order |
| Database.AffectTypesInOrder | database.py:140-144 | for the real mapping, a row's types are in declaration order, each at most once |
| Database.Column | database.py:156-159 | `affect[c]` is the column's value iff present, and otherwise a KeyError naming it |
| Database.OrChainFirstTruthy | database.py:155-160 | the or-chain gives the first truthy column's value, or the last column's; it fails iff a column it reaches is missing |
| Database.CreateActionDependency | database.py:152-158 | a CREATE_ACTION row depends on its create-action group and action |
| Database.AnyDependencyTypeExists | database.py:152-154 | a type list has a dependency type iff some entry is CREATE_ACTION, AFFECTS_ACTION or CREATE_ACTION_GROUP |
| Database.DependenciesOfOk | database.py:147-161 | the collection fails iff a row with a dependency type lacks a column its pair reads |
| Database.DependenciesOfMembers | database.py:147-161 | the collected set holds exactly the pairs of the rows with a dependency type |
| Database.DependenciesOfLast | database.py:149-160 | one more row adds its pair exactly when it has a dependency type |
| Database.AddForTypes | database.py:151-160 | one row's pair is added once if any of its types is a dependency type, and nothing is added otherwise |
| Database.IdentifyAffectActionDependencies | database.py:147-161 | the loops give the specified dependency set |
| Database.Node.constructor | database.py:234 | a vertex built from the entity with the given dependencies |
| Database.VertexCollection.constructor | database.py:225-226 | an empty collection |
| Database.VertexCollection.GetVertex | database.py:228-229 | the key's vertex if it has one, and None otherwise |
| Database.VertexCollection.Call | database.py:231-237 | a known key keeps its vertex and gains the dependencies; a new key gets a fresh vertex built from the entity, and no other key changes |
| Database.Link | database.py:249 | the key joins the collection if new, with a vertex built from its action row; its vertex, new or old, gains the entity's vertex as a dependency; every other key keeps its vertex and its dependencies; no vertex is lost |
| Database.GrowingStep | database.py:245-254 | one more key gaining the entity's vertex, with every other key's dependencies unchanged, keeps the collection "grown": the keys so far joined, and each key's dependencies are its old ones plus the entity's vertex exactly when it is a linked key |
| Database.LinkGrowing | database.py:249 | inside the loops, each link adds its key to the linked keys and keeps the whole collection grown from the state before the loops |
| Database.EntityVertex | database.py:242 | the entity key joins the collection (with a vertex built from the entity if new), and no key's dependencies change |
| Database.SkippedMembers | database.py:243-247 | the skipped keys are exactly the dependencies absent from the actions, in order |
| Database.LinkIfPresent | database.py:244-249 | a dependency is linked iff it is among the actions, and the collection stays grown |
| Database.LinkDependencies | database.py:244-249 | the skipped keys are the absent dependencies in order; the linked keys are exactly the present ones; they, and no other keys, join the collection and gain the entity's vertex, and every other vertex's dependencies are unchanged |
| Database.EmailsNamed | database.py:250-254 | the loop reaches the rows up to the first without a template name: every row before it has one, that row has none |
| Database.LinkEmailAt | database.py:251-253 | a row with a template name links that template's key, keeping the collection grown |
| Database.LinkEmails | database.py:250-254 | the loop fails iff some row lacks the template name; the template keys of the rows before the first such row, and no other keys, join the collection and gain the entity's vertex; every other vertex's dependencies are unchanged |
| Database.BuildDependencies | database.py:240-255 | the entity key has a vertex; the key set grows by exactly the entity key, the present dependencies and the email templates reached; exactly those linked keys gain the entity's vertex, and every other vertex's dependencies are unchanged; the skipped keys are returned, and the call fails iff an email row lacks its template name |
| Database.AddNotes | database.py:258-269 | one note per non-empty skipped list, action note first |
| Database.InsertNotes | database.py:294-301 | the notes come right after the first line, and every other line passes through in order |
| Database.NotesPlacement | database.py:294-301 | in the output of InsertNotes the notes sit right after the first line (the digraph header) and before the rest: taking them out gives the lines back in order, the header stays first, and the last line (the closing brace) stays last |
| Tree.ActionsByIdLastWins | web/src/Tree.js:111-113 | a group's id table has exactly its actions' ids, each mapped to the last action with that id |
| Tree.LookupKeys | web/src/Tree.js:110-112 | the lookup has exactly the groups' ids |
| Tree.LookupLastWins | web/src/Tree.js:110-114 | a group id maps to the id table of the last group with that id |
| Tree.BuildLookup | web/src/Tree.js:109-114 | the loops build the specified lookup |
| Tree.Target | web/src/Tree.js:120 | the target is the action under the item's ids, or undefined when the group lacks that action |
| Tree.FirstFailure | web/src/Tree.js:116-120 | the first item with both ids whose group is missing from the lookup, or the end |
| Tree.Attach | web/src/Tree.js:115-122 | items before the first failure with both ids get their target, items without an id are untouched, and the failure raises TypeError |
| Tree.AttachAt | web/src/Tree.js:116-121 | within the whole traversal, the visited prefix grows by all the items, each bound one holding its target and every unvisited affect its old action; or it stops just before the first affect of the traversal whose group is missing, with that group's TypeError |
| Tree.AttachAction | web/src/Tree.js:125-126 | the same for an action's start affects followed by its complete affects |
| Tree.AttachGroup | web/src/Tree.js:124-127 | the same for the affects of a group's actions, in action order |
| Tree.AttachActionsToAffects | web/src/Tree.js:108-129 | every affect before the first undefined group is attached to its target and others keep their action; the list is returned, or a TypeError names the missing group |
| Tree.DetailAction | web/src/Tree.js:84-93 | the detail action is the first action, group by group, with an email having documents, templates and recipients; it is null iff there is none |

## Left out

- Database connections and queries: `db.py:10-20`, `database.py:16-81` and `database.py:164-203` are I/O. Rows and tables are parameters of the model.
- `db.py:83-84`: the SELECT text is not modelled; `load` takes the fetched rows.
- Python floats: offsets are carried as opaque values and never computed with.
- ReswareModel.TaskOf: a float column equal to 1.0 or 2.0 is treated as an invalid task, while Python's `Task(1.0)` is START and `Task(2.0)` is COMPLETE. Floats are carried only by their repr, and the task columns are integer columns, which the driver hands over as ints.
- ReswareModel.IntType: `int()` of a string of digits (`int("42")` is 42) and of a float (`int(1.5)` is 1) are treated as raising. The columns it parses are integer columns.
- ReswareModel.GroupPartnerIncludeOutcomes: a float type id of `1.0` or `2.0` is treated as failing the assert, while Python's `type_id == 1` accepts `1.0` (include) and `2.0` (exclude). Floats are carried only by their repr; the type id column is an integer column.
- Db.CreateFromDbFields: the record binds the i-th parsed value to the i-th column field by name and drops fields without a column. Python's `dclass(*args)` binds by position over all of the class's fields, so a class with a field lacking a column would shift the arguments or raise TypeError. Every table class of `resware_model.py` declares only column fields (ReswareModel.AllColumns), where the two agree. Db.CreateFromDb and Db.RecordOf share this.
- ReswareModel.FloatType: `float()` of a numeric string (`float("1.5")` is 1.5) is treated as raising. The offset column is a float column.
- The vertex builders `database.py:206-221`: they pass their arguments positionally into the wrong parameters of `Vertex`, so a vertex's dependencies start as the characters of a string. The model keeps a vertex as the entity and its dependencies, and does not render database.py vertices.
- The trigger branch of `database.py:284-292`: it runs only when the INCLUDE_TRIGGERS setting is set, and it calls `_build_dependencies` with one argument missing.
- Database.AddNotes: the note text renders the skipped keys with a simplified `repr` (integers, strings without quote escaping, and None).
- The order of Python sets and dicts: set iteration is a nondeterministic choice. Each property claimed is proved for every order.
- Graph.BuildActionList: dict insertion order of the context is not modelled, only its contents. Every property stated is order-independent.
- GraphWalk.StripPrefixMeaning: `\w` is taken as ASCII letters, digits and `_`. Python's Unicode word characters are not modelled.
- GraphWalk.GenerateDigraph: roots are given as context keys, not as arbitrary Action objects built by hand.
- `graph.py` properties `desc` and `path`, and the `__main__` blocks of `graph.py` and `deps.py`: they only print.
- Tree.AttachActionsToAffects: its "other affects keep their action" clause covers affect objects that existed before the call.
- Tree ids are either null or numbers. Other JavaScript values, such as strings or objects used as keys, are not modelled.
- `web/src/Tree.js:1-80` and `94-105`: React rendering and `console.log`.
- `web.py`, `sheets.py`, `settings.py`, `web/src/App.js`, `web/src/index.js` and `web/src/Tree.test.js`: they are not part of this model.

## Findings

| source | as written | input that shows it | evidently intended | confidence | as-written member | corrected member |
|---|---|---|---|---|---|---|
| graph.py:41-43 | the context is declared an `InitVar`, so no affect, email or action stores it, and every `.action` or `.group` lookup raises AttributeError, in `find_roots` and equally in `_walk` and the digraph emitters (graph.py:333, 361, 380), which read the same properties | an action list whose group has a trigger on external action 14: `find_roots` raises instead of returning the trigger's target | keep the context on the object and look actions up in it | not executed | GraphWalk.AsWrittenRootsFail | GraphWalk.RootsOfMeaning |
