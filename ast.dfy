/**
 The slice of a JavaScript syntax tree that the script plugin inspects and
 rewrites: top-level statements, import declarations with their specifiers,
 variable declarations with destructuring patterns, and the expression forms
 through which an `export default` object can reach its `setup` method.
 Everything else is collapsed into an opaque `Other…` variant.
 */
module Ast {

  datatype Option<T> = None | Some(value: T)

  /** One specifier of an import declaration. */
  datatype Specifier =
    | Named(imported: string, local: string)   // import { imported as local }
    | Default(local: string)                   // import local from '…'
    | Namespace(local: string)                 // import * as local from '…'

  /** The key of an object member or of a destructured property. An
      identifier key, computed or not, is `KeyIdent`; string, numeric and
      other keys are `KeyOther`. */
  datatype Key = KeyIdent(name: string) | KeyOther

  /** `method` is `setup() {}`; `get`/`set` are accessor members. */
  datatype MethodKind = MethodFn | Getter | Setter

  datatype VarKind = Const | Let | Var

  /** A property of an object pattern: `{ key: local }`, or a rest element. */
  datatype PatternProp = PatternProperty(key: Key, local: string) | RestElement(local: string)

  datatype Pattern = ObjectPattern(props: seq<PatternProp>) | IdentPattern(name: string) | OtherPattern

  datatype Stmt =
    | Import(source: string, specs: seq<Specifier>)
    | VarDecl(kind: VarKind, decls: seq<Declarator>)
    | ExportDefault(decl: Expr)
    | ExprStmt(expr: Expr)
    | OtherStmt

  datatype Declarator = Declarator(id: Pattern, init: Option<Expr>)

  datatype Expr =
    | Ident(name: string)
    | StrLit(value: string)
    | Call(callee: Expr, args: seq<Expr>)
    | Object(members: seq<Member>)
    | Func(body: seq<Stmt>)                   // function or arrow function with a block body
    | OtherExpr

  /** A member of an object literal: an object method with its own block
      body, or a plain property. */
  datatype Member =
    | Method(kind: MethodKind, key: Key, body: seq<Stmt>)
    | Property(key: Key, value: Expr)

  // The module sources and member names the plugin hard-codes.
  const VueSource := "vue"
  const I18nSource := "vue-i18n"
  const UseI18n := "useI18n"
  const RefName := "ref"
  const ComputedName := "computed"
  const TName := "t"
  const SetupName := "setup"

  /** `import { ref, computed } from 'vue'` */
  const VueImport := Import(VueSource, [Named(RefName, RefName), Named(ComputedName, ComputedName)])

  /** `import { useI18n } from 'vue-i18n'` */
  const I18nImport := Import(I18nSource, [Named(UseI18n, UseI18n)])

  /** `const { t } = useI18n()` */
  const Binding := VarDecl(Const, [Declarator(ObjectPattern([PatternProperty(KeyIdent(TName), TName)]),
                                              Some(Call(Ident(UseI18n), [])))])

  /** The utility the plugin imports from its own utils module: a named
      specifier whose imported name is `member`. Default and namespace
      specifiers never count. */
  predicate HasImportedMember(specs: seq<Specifier>, member: string)
  {
    exists i :: 0 <= i < |specs| && specs[i].Named? && specs[i].imported == member
  }

  /** How many named specifiers import `member`. */
  function CountImported(specs: seq<Specifier>, member: string): nat
  {
    if specs == [] then 0
    else CountImported(specs[..|specs| - 1], member)
         + (if specs[|specs| - 1].Named? && specs[|specs| - 1].imported == member then 1 else 0)
  }

  lemma {:induction false} CountImportedPositive(specs: seq<Specifier>, member: string)
    ensures CountImported(specs, member) > 0 <==> HasImportedMember(specs, member)
  {
    if specs != [] {
      var init := specs[..|specs| - 1];
      CountImportedPositive(init, member);
      if HasImportedMember(init, member) {
        var i :| 0 <= i < |init| && init[i].Named? && init[i].imported == member;
        assert specs[i] == init[i];
      }
      if HasImportedMember(specs, member) && !(specs[|specs| - 1].Named? && specs[|specs| - 1].imported == member) {
        var i :| 0 <= i < |specs| && specs[i].Named? && specs[i].imported == member;
        assert init[i] == specs[i];
      }
    }
  }
}
