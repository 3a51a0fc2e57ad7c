# Declaration injection of the auto-i18n script plugin

This project models the Babel plugin in `src/plugins/script.ts`. The plugin
prepares a Vue single-file component's `<script>` for internationalisation.

- It makes the program import `useI18n` from 'vue-i18n', and `ref` and
  `computed` from 'vue'.
- It declares `const { t } = useI18n()` where the component can use it:
  - in every `setup` method of the default export, when the program has an
    `export default`;
  - otherwise at top level, at the index `findIndex` gives for the first
    statement that is not an import. When every statement is an import that
    index is -1, and the binding lands in front of the last import (see
    below).

The program body is an ordered list of top-level statements. An import
declaration is a module source plus an ordered list of specifiers. Every other
statement kind the plugin looks at has its own constructor. Those are variable
declarations with their declarators and patterns, `export default` with its
expression tree (objects, methods, calls, functions), expression statements,
and an opaque `OtherStmt`.

| file | module | models |
|---|---|---|
| `ast.dfy` | `Ast` | statements, specifiers, patterns, the canonical statements the plugin inserts, `hasImportedMember` |
| `js_array.dfy` | `JsArray` | `Array.prototype.findIndex` and `splice(start, 0, item)`, including a negative `start` |
| `script_imports.dfy` | `ScriptImports` | `addImportStatement` as a function on the body, plus its properties |
| `script_binding.dfy` | `ScriptBinding` | `addVariableDeclaration`: the guard, the insertion index, idempotence |
| `script_walk.dfy` | `ScriptWalk` | the `ObjectMethod` traversal of an `export default` subtree |
| `script_visitor.dfy` | `ScriptVisitor` | the `Program` class, whose methods rewrite the body in place, and the dispatch |
| `script_snapshots.dfy` | `ScriptSnapshots` | the inline snapshots of the import and variable tests, stated on the model |

The source changes the program body in place, so the model does too. Class
`ScriptVisitor.Program` holds `body`, and its methods change it:

- `AddImportStatement` seeds, unshifts and pushes specifiers;
- `PushIfMissing` is one guarded `specifiers.push`;
- `InsertBinding` is the top-level `splice`;
- `Visit` is the visitor.

Each method is proved against a specification function: `WithImports`,
`AddVariableDeclaration` or `Processed`. The properties are lemmas about
those functions.

Two behaviours of the code are reproduced exactly:

- **An empty body still runs the lookups.** `path.skip()` does not return.
  After seeding, the two lookups still run and find both declarations
  complete (`EmptyBodySeeded`).
- **An empty body ends with the binding between the imports.** The visitor
  then calls `addVariableDeclaration` on a top-level list that holds only
  the two imports, so the final body is the 'vue' import, the binding, then
  the 'vue-i18n' import (`EmptyBodyProcessed`).

Where the comment in the source and the code differ, the model follows the
code:

- **The binding can land above the `useI18n` import.** The comment at
  src/plugins/script.ts:14 says the binding goes below the import statement
  of `useI18n`. When every top-level statement is an import, `findIndex` at
  src/plugins/script.ts:108 answers -1, and `splice(-1, 0, x)` at line 109
  puts the binding in front of the LAST statement. After the import
  injection that is often the 'vue-i18n' declaration, so the binding ends
  up above it. The inline snapshots at test/index.test.ts:47-51 and 81-85
  record exactly this placement. `BindingInsertedAt` states the rule, and
  `NoRefSnapshot`, `NoUseI18nSnapshot` and `EmptyBodyProcessed` exhibit it.

`hasImportedMember` is defined in src/utils/index, and that file is not part
of this model. It is assumed to hold when a named specifier of the
declaration imports the member, whatever its local name. Default and
namespace specifiers never count. `Ast.HasImportedMember` states this
assumption.

## Model

| member | source | states |
|---|---|---|
| Ast.CountImportedPositive | src/plugins/script.ts:53 | a member is imported by a specifier list exactly when it is counted there at least once |
| Ast.HasImportedMember | src/plugins/script.ts:53 | the assumed `hasImportedMember`: some named specifier imports the member; characterised by `CountImportedPositive` and used by every guarded push |
| JsArray.FindIndex | src/plugins/script.ts:108 | -1 exactly when no element satisfies the predicate; otherwise the index of the first element that does |
| JsArray.SpliceInsert | src/plugins/script.ts:109-111 | `splice(start, 0, item)` with a possibly negative start; `SpliceInsertShape` gives its length, position and kept parts |
| JsArray.SpliceInsertShape | src/plugins/script.ts:109-111 | inserting one item grows the list by one, puts the item at the computed start, and keeps the prefix before it and the suffix after it |
| ScriptImports.Seeded | src/plugins/script.ts:24-34 | an empty body becomes the 'vue' and 'vue-i18n' declarations, any other body is kept; `EmptyBodySeeded` gives the result |
| ScriptImports.Prepended | src/plugins/script.ts:45-50 | the declarations the two unshifts put in front: 'vue' first if missing, then 'vue-i18n' if missing (lines 64-72 run second, so 'vue' ends up first); `BothAbsentPrepended` and `WithImportsLayout` characterise it |
| ScriptImports.Extended | src/plugins/script.ts:53-57 | the body with the governing 'vue-i18n' declaration extended by `useI18n` and then the governing 'vue' declaration by `ref` and `computed` (lines 75-84), each only if missing; its length is the body's; `I18nImportEnsured` and `VueImportEnsured` pin it |
| ScriptImports.WithImports | src/plugins/script.ts:20-86 | the body after `addImportStatement`; pinned by `I18nImportEnsured`, `VueImportEnsured` and `WithImportsLayout`, complete by `WithImportsComplete`, idempotent by `WithImportsIdempotent` |
| ScriptImports.ExtendImport | src/plugins/script.ts:53-57 | the guarded pushes applied to the declaration at one index, every other statement kept; characterised by `AppendMissingCount` and `WithImportsLayout` |
| ScriptImports.AppendMissing | src/plugins/script.ts:75-84 | each member appended in order only if not yet imported; characterised by `AppendMissingTwo`, `AppendMissingCount` and `AppendMissingComplete` |
| ScriptImports.FirstImportOf | src/plugins/script.ts:40-43 | a found index points at a declaration of the requested module |
| ScriptImports.FirstImportOfFirst | src/plugins/script.ts:60-62 | `find` answers nothing exactly when no declaration of the module exists, and otherwise the first one |
| ScriptImports.AppendMissingTwo | src/plugins/script.ts:75-84 | `ref` then `computed` are each appended only if missing, checked independently, behind the existing specifiers in their order |
| ScriptImports.AppendMissingCount | src/plugins/script.ts:53-57 | after the guarded pushes a managed member is imported once if it was missing, and as often as before otherwise |
| ScriptImports.AppendMissingComplete | src/plugins/script.ts:53 | nothing is pushed when every member is already imported |
| ScriptImports.EmptyBodySeeded | src/plugins/script.ts:24-36 | an empty body becomes exactly the 'vue' and 'vue-i18n' declarations; the lookups after `path.skip()` add nothing |
| ScriptImports.I18nImportEnsured | src/plugins/script.ts:40-58 | without a 'vue-i18n' declaration, `{ useI18n }` is prepended; otherwise the first one stays the governing one, with `useI18n` appended after its own specifiers only if it lacked it |
| ScriptImports.VueImportEnsured | src/plugins/script.ts:60-85 | without a 'vue' declaration, `{ ref, computed }` goes in front; otherwise the first one stays governing and gains `ref`, then `computed`, each only if missing |
| ScriptImports.WithImportsLayout | src/plugins/script.ts:44-85 | the original statements follow the prepended declarations in their order; only the two governing declarations change, keeping their module and only gaining specifiers |
| ScriptImports.BothAbsentPrepended | src/plugins/script.ts:45-51 | with neither module imported, the result is the 'vue' declaration, then 'vue-i18n', then the original body |
| ScriptImports.MembersNotDuplicated | src/plugins/script.ts:53-57 | a governing declaration imports each of its managed members exactly once afterwards if it had none, and the call adds no duplicate |
| ScriptImports.WithImportsComplete | src/plugins/script.ts:20-86 | afterwards both governing declarations exist and import `useI18n`, `ref` and `computed` |
| ScriptImports.CompleteIsFixpoint | src/plugins/script.ts:44-85 | a body whose imports are complete is left unchanged |
| ScriptImports.WithImportsIdempotent | src/plugins/script.ts:20-86 | a second import injection changes nothing |
| ScriptBinding.IsTDeclarator | src/plugins/script.ts:93-104 | the inner test of the guard: a `useI18n(…)` call destructured by an object pattern with an identifier key `t`; `BindingDeclaresT` shows the inserted binding passes it and `OtherNameSnapshot` that `{ other }` does not |
| ScriptBinding.HasTBinding | src/plugins/script.ts:89-106 | the `node.some(…)` guard; `WithImportsKeepsTBinding` and `WalkKeepsGuard` show the surrounding steps keep it |
| ScriptBinding.FirstNonImport | src/plugins/script.ts:108 | `findIndex` of the first statement that is not an import, -1 when there is none; `JsArray.FindIndex` characterises it |
| ScriptBinding.AddVariableDeclaration | src/plugins/script.ts:88-113 | the list after `addVariableDeclaration`; pinned by `BindingInsertedAt`, with `BindingPresentAfter` and `AddVariableDeclarationIdempotent` |
| ScriptBinding.BindingDeclaresT | src/plugins/script.ts:89-106 | the inserted `const { t } = useI18n()` is recognised by the guard |
| ScriptBinding.BindingInsertedAt | src/plugins/script.ts:88-113 | nothing is inserted when a `{ t } = useI18n()` declarator exists; otherwise the binding goes in front of the first non-import, in front of the last statement when all are imports, or becomes the only statement of an empty list |
| ScriptBinding.BindingPresentAfter | src/plugins/script.ts:89-111 | afterwards the list always holds a matching binding |
| ScriptBinding.AddVariableDeclarationIdempotent | src/plugins/script.ts:88-113 | a second call leaves the list unchanged |
| ScriptWalk.IsSetup | src/plugins/script.ts:127-131 | the `setup` test: kind `method` and the identifier key `setup`; `WalkSetupInserts` says what happens to a method that passes it |
| ScriptWalk.WalkExpr | src/plugins/script.ts:125-134 | the `ObjectMethod` traversal of an expression; `WalkKeepsSkelExpr` gives its frame, `WalkSetupInserts` what each `setup` body becomes, `WalkBindsExpr` its effect and `WalkFixpointExpr` when it changes nothing |
| ScriptWalk.WalkMember | src/plugins/script.ts:126-133 | the traversal of one object member, adding the binding to a `setup` body; `WalkSetupInserts` pins that body |
| ScriptWalk.WalkSetupInserts | src/plugins/script.ts:126-132 | a `setup` method keeps its kind and key; its walked body keeps its length and, unless it already declared `{ t }`, gains exactly one binding at the `findIndex`/`splice` position of the original body, with the walked statements kept in order around it |
| ScriptWalk.WalkFixpointExpr | src/plugins/script.ts:125-134 | the walk leaves an expression unchanged exactly when every `setup` method in it already declares the binding |
| ScriptWalk.WalkFixpointMember | src/plugins/script.ts:126-133 | the same for one object member: unchanged exactly when every `setup` method in it declares the binding |
| ScriptWalk.WalkFixpointStmts | src/plugins/script.ts:124-135 | the same for a statement list |
| ScriptWalk.WalkFixpointStmt | src/plugins/script.ts:124-135 | the same for one statement |
| ScriptWalk.SkelExpr | src/plugins/script.ts:126-132 | an expression with the body of every `setup` method emptied: the part the traversal must not change |
| ScriptWalk.WalkKeepsSkelExpr | src/plugins/script.ts:125-134 | the walk changes nothing in an expression but the bodies of `setup` methods: every other method, property, call, function and statement, with its keys, names and literals, survives at any depth, whether or not a binding was added |
| ScriptWalk.WalkKeepsSkelMember | src/plugins/script.ts:126-133 | the same for one object member: a `setup` method keeps its kind and key, any other member everything |
| ScriptWalk.WalkKeepsSkelStmts | src/plugins/script.ts:124-135 | the same for a statement list |
| ScriptWalk.WalkKeepsSkelStmt | src/plugins/script.ts:124-135 | the same for one statement |
| ScriptWalk.WalkKeepsGuard | src/plugins/script.ts:125-133 | the walk keeps a list's length and every statement's kind, and neither adds nor removes a `{ t }` binding in it, so the guard and the `findIndex` answer are unchanged |
| ScriptWalk.WalkCommutes | src/plugins/script.ts:126-132 | adding the binding on entering a `setup` method and then walking its new body gives the same body as walking first and adding after |
| ScriptWalk.WalkBindsExpr | src/plugins/script.ts:125-134 | after the walk, every `setup` method reachable in the expression, at any depth, declares `{ t }` from `useI18n()` |
| ScriptWalk.WalkBindsStmt | src/plugins/script.ts:124-135 | after the walk, every `setup` method inside the statement declares the binding |
| ScriptWalk.WalkStmtIdempotent | src/plugins/script.ts:124-135 | walking a second time changes nothing |
| ScriptVisitor.HasExportDefault | src/plugins/script.ts:122 | the `some(ExportDefaultDeclaration)` test; `WithImportsKeepsExportDefault` shows the import injection does not change it |
| ScriptVisitor.InjectSetups | src/plugins/script.ts:123-136 | every `export default` walked, every other top-level statement left alone; characterised by `ExportDefaultDispatch` |
| ScriptVisitor.Processed | src/plugins/script.ts:120-141 | the body after the visitor; characterised by `ExportDefaultDispatch`, `TopLevelDispatch`, `ProcessedImportsComplete` and `ProcessedIdempotent` |
| ScriptVisitor.Program.PushIfMissing | src/plugins/script.ts:53-57 | one guarded `specifiers.push` on the declaration at the given index, in place |
| ScriptVisitor.Program.AddImportStatement | src/plugins/script.ts:20-86 | the in-place seeding, unshifting and pushing give `WithImports` of the old body, and the imports are then complete |
| ScriptVisitor.Program.InsertBinding | src/plugins/script.ts:108-111 | the in-place splice gives `AddVariableDeclaration` of the old body, and a binding then exists |
| ScriptVisitor.Program.Visit | src/plugins/script.ts:120-141 | the visitor leaves `Processed` of the old body, with complete imports |
| ScriptVisitor.ProcessedImportsComplete | src/plugins/script.ts:121-140 | the imports are complete at top level whichever way the binding is dispatched |
| ScriptVisitor.WithImportsKeepsExportDefault | src/plugins/script.ts:121-122 | the import injection neither adds nor removes an `export default`, so the dispatch sees the original program's choice |
| ScriptVisitor.WithImportsKeepsTBinding | src/plugins/script.ts:121 | the import injection neither adds nor removes a `{ t }` binding at top level |
| ScriptVisitor.ExportDefaultDispatch | src/plugins/script.ts:122-137 | with an `export default` nothing is inserted at top level and statements other than `export default` are those the import injection left; each `export default` is walked: outside its `setup` bodies it is unchanged, every `setup` method in it declares the binding afterwards, and it is left exactly as it was when all its `setup` methods already did |
| ScriptVisitor.TopLevelDispatch | src/plugins/script.ts:138-140 | without an `export default` a binding exists at top level afterwards, and exactly one statement was added unless one existed |
| ScriptVisitor.ProcessedIdempotent | src/plugins/script.ts:120-141 | running the visitor a second time changes nothing |
| ScriptSnapshots.EmptyBodyProcessed | src/plugins/script.ts:24-36 | an empty body ends as the 'vue' import, the binding, then the 'vue-i18n' import |
| ScriptSnapshots.AllAbsentSnapshot | test/index.test.ts:23-36 | `import { a } from "b"` gains both declarations in front and the binding in front of it |
| ScriptSnapshots.NoRefSnapshot | test/index.test.ts:39-54 | `ref` is appended after `computed`, and the binding goes in front of the 'vue-i18n' import |
| ScriptSnapshots.NoComputedSnapshot | test/index.test.ts:56-71 | `computed` is appended after `ref` |
| ScriptSnapshots.NoUseI18nSnapshot | test/index.test.ts:73-88 | `useI18n` is appended to the existing 'vue-i18n' declaration after its own member, and no second declaration appears |
| ScriptSnapshots.PlainScriptSnapshot | test/index.test.ts:92-108 | the binding goes between the new imports and `const a = "xxx"` |
| ScriptSnapshots.OtherNameSnapshot | test/index.test.ts:137-155 | `const { other } = useI18n()` does not count, so the binding is still inserted in front of it |
| ScriptSnapshots.SetupSnapshot | test/index.test.ts:110-135 | with `export default { setup() { … } }` the imports go at top level and the binding becomes the first statement of `setup` (also test/index.test.ts:157-184) |

## Left out

- Babel parsing, code generation and `template.ast` are not modelled. The statements the plugin builds are constants: `VueImport`, `I18nImport`, `Binding`.
- Babel's traversal machinery is replaced by a structural walk of the default export's expression tree. This covers `path.skip`, `scope.traverse` and visitor state.
  - The walk reaches method bodies inside objects, call arguments, property values, function bodies and other methods' bodies.
  - Statements and expressions outside the modelled kinds (`OtherStmt`, `OtherExpr`: classes, conditionals, loops and so on) are opaque. An object method nested inside them is not reached, although Babel would reach it.
- An `export default` nested inside another default export is walked once. Babel's parser never produces one.
- Object keys are only an identifier name or something else. The `computed` flag of a key is not represented. The test at src/plugins/script.ts:128-130 does not look at it either, so `[setup]() {}` counts as a `setup` method in the source and in the model alike.
- The walk does not enter method parameters, computed keys or the default values of patterns, all of which Babel visits. An object method written inside one of them is not reached.
- `setup` bodies nested in the default export are rewritten by value, by rebuilding the enclosing expression tree. The model does not capture that the source mutates those arrays in place, or any aliasing between them.
- `hasImportedMember` lives in src/utils/index, which is not part of this model. It is assumed to match named specifiers by imported name (see above).
- A named specifier can be pushed onto a declaration that holds only a default or namespace specifier. This is modelled as the code does it, without judging whether the printed import is valid.
- Literal rewriting (`ref(s)` to `ref(t(key))`, `s` to `computed(() => t(key))`) is not modelled. Items 3-4 of the comment at src/plugins/script.ts:15-18 describe it, but this file does not implement it.
- The template-side text replacement, the message-key resolver `getMatchedMsgPath` and the SFC entry point `start` are not part of this model.
- Asynchrony, the plugin factory's `babel` argument and the `VisitorState` file options are not modelled, since nothing in the core depends on them.
