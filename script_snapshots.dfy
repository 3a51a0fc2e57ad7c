/**
 The inline snapshots of the plugin's import and variable tests, restated
 on the statement model: each lemma states the statement list the visitor
 leaves for one test input.
 */
module ScriptSnapshots {
  import opened Ast
  import opened ScriptImports
  import opened ScriptBinding
  import opened ScriptWalk
  import opened ScriptVisitor

  function NamedOf(m: string): Specifier { Named(m, m) }

  /** `const a = "xxx"` */
  const ConstA := VarDecl(Const, [Declarator(IdentPattern("a"), Some(StrLit("xxx")))])

  /** `const { other } = useI18n()` */
  const OtherBinding := VarDecl(Const, [Declarator(ObjectPattern([PatternProperty(KeyIdent("other"), "other")]),
                                                   Some(Call(Ident(UseI18n), [])))])

  function DefaultWithSetup(body: seq<Stmt>): Stmt
  {
    ExportDefault(Object([Method(MethodFn, KeyIdent(SetupName), body)]))
  }

  lemma NotDeclaringT(s: Stmt)
    requires s.Import? || s == ConstA || s == OtherBinding
    ensures !DeclaresT(s)
  {
    if s == OtherBinding {
      assert OtherBinding.decls[0].id.props[0].key.name == "other";
    }
  }

  /** Two imports: the binding goes in front of the last one. */
  lemma TwoImportsBound(w: seq<Stmt>)
    requires |w| == 2 && w[0].Import? && w[1].Import?
    ensures AddVariableDeclaration(w) == [w[0], Binding, w[1]]
  {
    NotDeclaringT(w[0]);
    NotDeclaringT(w[1]);
    assert !HasTBinding(w);
    BindingInsertedAt(w);
  }

  /** Two imports and a third statement that does not declare `t`: the
      binding goes in front of the third, whether it is the first non-import
      or the last of three imports. */
  lemma ThreeStmtsBound(w: seq<Stmt>)
    requires |w| == 3 && w[0].Import? && w[1].Import? && !DeclaresT(w[2])
    ensures AddVariableDeclaration(w) == [w[0], w[1], Binding, w[2]]
  {
    NotDeclaringT(w[0]);
    NotDeclaringT(w[1]);
    assert !HasTBinding(w);
    BindingInsertedAt(w);
  }

  /** An empty body ends up as the two imports with the binding spliced in
      front of the last of them (`splice(-1, 0, …)`). */
  lemma EmptyBodyProcessed()
    ensures Processed([]) == [VueImport, Binding, I18nImport]
  {
    EmptyBodySeeded();
    TwoImportsBound([VueImport, I18nImport]);
  }

  /** 'All absence': `import { a } from "b"` gains both declarations in
      front and the binding in front of the last import. */
  lemma AllAbsentSnapshot()
    ensures var b := Import("b", [NamedOf("a")]);
            Processed([b]) == [VueImport, I18nImport, Binding, b]
  {
    var b := Import("b", [NamedOf("a")]);
    assert FirstImportOf([b], VueSource).None? && FirstImportOf([b], I18nSource).None?;
    BothAbsentPrepended([b]);
    NotDeclaringT(b);
    ThreeStmtsBound([VueImport, I18nImport, b]);
  }

  /** 'no ref': `ref` is appended after `computed`, and the binding goes in
      front of the 'vue-i18n' import. */
  lemma NoRefSnapshot()
    ensures Processed([Import(VueSource, [NamedOf(ComputedName)]), I18nImport])
            == [Import(VueSource, [NamedOf(ComputedName), NamedOf(RefName)]), Binding, I18nImport]
  {
    var b := [Import(VueSource, [NamedOf(ComputedName)]), I18nImport];
    var w := [Import(VueSource, [NamedOf(ComputedName), NamedOf(RefName)]), I18nImport];
    assert WithImports(b) == w by {
      FirstImportOfAt(b, VueSource, 0);
      FirstImportOfAt(b, I18nSource, 1);
      CanonicalMembers();
      AppendMissingComplete(I18nImport.specs, [UseI18n]);
      assert ExtendImport(b, 1, [UseI18n]) == b;
      assert !HasImportedMember(b[0].specs, RefName);
      assert HasImportedMember(b[0].specs, ComputedName) by { assert b[0].specs[0].imported == ComputedName; }
      AppendMissingTwo(b[0].specs, RefName, ComputedName);
      var sv := AppendMissing(b[0].specs, [RefName, ComputedName]);
      assert sv == [NamedOf(ComputedName), NamedOf(RefName)];
      assert ExtendImport(b, 0, [RefName, ComputedName]) == w;
      assert Extended(b) == w;
      assert Prepended(b) == [];
    }
    assert !HasExportDefault(w);
    TwoImportsBound(w);
  }

  /** 'no computed': `computed` is appended after `ref`. */
  lemma NoComputedSnapshot()
    ensures Processed([Import(VueSource, [NamedOf(RefName)]), I18nImport])
            == [VueImport, Binding, I18nImport]
  {
    var b := [Import(VueSource, [NamedOf(RefName)]), I18nImport];
    var w := [VueImport, I18nImport];
    assert WithImports(b) == w by {
      FirstImportOfAt(b, VueSource, 0);
      FirstImportOfAt(b, I18nSource, 1);
      CanonicalMembers();
      AppendMissingComplete(I18nImport.specs, [UseI18n]);
      assert ExtendImport(b, 1, [UseI18n]) == b;
      assert HasImportedMember(b[0].specs, RefName) by { assert b[0].specs[0].imported == RefName; }
      assert !HasImportedMember(b[0].specs, ComputedName);
      AppendMissingTwo(b[0].specs, RefName, ComputedName);
      var sv := AppendMissing(b[0].specs, [RefName, ComputedName]);
      assert sv == [NamedOf(RefName), NamedOf(ComputedName)];
      assert ExtendImport(b, 0, [RefName, ComputedName]) == w;
      assert Extended(b) == w;
      assert Prepended(b) == [];
    }
    assert !HasExportDefault(w);
    TwoImportsBound(w);
  }

  /** 'no useI18n' among the imports: `useI18n` is appended to the existing
      'vue-i18n' declaration after its own member, and no second
      declaration is created. */
  lemma NoUseI18nSnapshot()
    ensures Processed([VueImport, Import(I18nSource, [NamedOf("shit")])])
            == [VueImport, Binding, Import(I18nSource, [NamedOf("shit"), NamedOf(UseI18n)])]
  {
    var b := [VueImport, Import(I18nSource, [NamedOf("shit")])];
    var w := [VueImport, Import(I18nSource, [NamedOf("shit"), NamedOf(UseI18n)])];
    assert WithImports(b) == w by {
      FirstImportOfAt(b, VueSource, 0);
      FirstImportOfAt(b, I18nSource, 1);
      CanonicalMembers();
      assert !HasImportedMember(b[1].specs, UseI18n);
      AppendMissingOne(b[1].specs, UseI18n);
      var si := AppendMissing(b[1].specs, [UseI18n]);
      assert si == [NamedOf("shit"), NamedOf(UseI18n)];
      var b1 := ExtendImport(b, 1, [UseI18n]);
      assert b1 == w;
      AppendMissingComplete(VueImport.specs, [RefName, ComputedName]);
      assert ExtendImport(b1, 0, [RefName, ComputedName]) == w;
      assert Extended(b) == w;
      assert Prepended(b) == [];
    }
    assert !HasExportDefault(w);
    TwoImportsBound(w);
  }

  /** 'no useI18n' among the variables: the binding goes between the new
      imports and `const a = "xxx"`. */
  lemma PlainScriptSnapshot()
    ensures Processed([ConstA]) == [VueImport, I18nImport, Binding, ConstA]
  {
    assert FirstImportOf([ConstA], VueSource).None? && FirstImportOf([ConstA], I18nSource).None?;
    BothAbsentPrepended([ConstA]);
    var w := [VueImport, I18nImport, ConstA];
    NotDeclaringT(ConstA);
    assert !HasExportDefault(w);
    ThreeStmtsBound(w);
  }

  /** 'no { t }': a binding that destructures only `other` does not count,
      so the canonical one is still inserted in front of it. */
  lemma OtherNameSnapshot()
    ensures Processed([OtherBinding]) == [VueImport, I18nImport, Binding, OtherBinding]
  {
    assert FirstImportOf([OtherBinding], VueSource).None? && FirstImportOf([OtherBinding], I18nSource).None?;
    BothAbsentPrepended([OtherBinding]);
    var w := [VueImport, I18nImport, OtherBinding];
    NotDeclaringT(OtherBinding);
    assert !HasExportDefault(w);
    ThreeStmtsBound(w);
  }

  lemma PlainWalked(s: Stmt)
    requires s == ConstA || s == OtherBinding
    ensures WalkStmts([s]) == [s]
  {
    assert WalkStmt(s) == s by {
      assert WalkExprs([]) == [];
      assert WalkDecl(s.decls[0]) == s.decls[0];
    }
  }

  lemma SetupBodyBound(s: Stmt)
    requires s == ConstA || s == OtherBinding
    ensures AddVariableDeclaration(WalkStmts([s])) == [Binding, s]
  {
    PlainWalked(s);
    NotDeclaringT(s);
    assert !HasTBinding([s]);
    BindingInsertedAt([s]);
  }

  lemma SetupWalked(s: Stmt)
    requires s == ConstA || s == OtherBinding
    ensures WalkStmt(DefaultWithSetup([s])) == DefaultWithSetup([Binding, s])
  {
    var m := Method(MethodFn, KeyIdent(SetupName), [s]);
    assert WalkMember(m) == Method(MethodFn, KeyIdent(SetupName), [Binding, s]) by {
      assert IsSetup(m);
      SetupBodyBound(s);
    }
    assert WalkMembers([m]) == [WalkMember(m)];
  }

  /** 'no useI18n(inside setup)' and 'no { t }(inside setup)': the imports
      go at top level, the binding becomes the first statement of `setup`,
      and nothing is inserted at top level. */
  lemma SetupSnapshot(s: Stmt)
    requires s == ConstA || s == OtherBinding
    ensures Processed([DefaultWithSetup([s])])
            == [VueImport, I18nImport, DefaultWithSetup([Binding, s])]
  {
    var d := DefaultWithSetup([s]);
    assert FirstImportOf([d], VueSource).None? && FirstImportOf([d], I18nSource).None?;
    BothAbsentPrepended([d]);
    var w := [VueImport, I18nImport, d];
    assert HasExportDefault(w) by { assert w[2].ExportDefault?; }
    SetupWalked(s);
    var r := InjectSetups(w);
    assert r[0] == VueImport && r[1] == I18nImport && r[2] == WalkStmt(d);
  }
}
