/**
 The plugin's `Program` visitor: add the imports at top level, then add
 the `const { t } = useI18n()` binding either to every `setup` method of the
 default export (when the body has an `export default`) or to the top-level
 statement list itself.
 */
module ScriptVisitor {
  import opened Ast
  import JsArray
  import opened ScriptImports
  import opened ScriptBinding
  import opened ScriptWalk

  /** `path.node.body.some(p => p.type === 'ExportDefaultDeclaration')` */
  predicate HasExportDefault(b: seq<Stmt>)
  {
    exists i :: 0 <= i < |b| && b[i].ExportDefault?
  }

  /** The top-level traversal that hands every `export default` declaration
      to the `ObjectMethod` walk; no other top-level statement is visited. */
  function InjectSetups(b: seq<Stmt>): seq<Stmt>
  {
    seq(|b|, i requires 0 <= i < |b| => if b[i].ExportDefault? then WalkStmt(b[i]) else b[i])
  }

  /** The program body after the visitor has run. */
  function Processed(b: seq<Stmt>): seq<Stmt>
  {
    var w := WithImports(b);
    if HasExportDefault(w) then InjectSetups(w) else AddVariableDeclaration(w)
  }

  /** The parsed program, whose statement list the plugin rewrites in place. */
  class Program {
    var body: seq<Stmt>

    constructor (body: seq<Stmt>)
      ensures this.body == body
    {
      this.body := body;
    }

    /** `if (!hasImportedMember(decl, member)) decl.specifiers.push(member)`
        on the declaration at index `at`. */
    method PushIfMissing(at: nat, member: string)
      requires at < |body| && body[at].Import?
      modifies this
      ensures body == ExtendImport(old(body), at, [member])
    {
      AppendMissingOne(body[at].specs, member);
      if !HasImportedMember(body[at].specs, member) {
        body := body[at := Import(body[at].source, body[at].specs + [Named(member, member)])];
      } else {
        assert body[at].specs + [] == body[at].specs;
      }
    }

    /** `addImportStatement`, step by step: seed an empty body, look both
        modules up once, then unshift declarations or push specifiers. */
    method AddImportStatement()
      modifies this
      ensures body == WithImports(old(body))
      ensures ImportsComplete(body)
    {
      if |body| == 0 {
        body := body + [VueImport, I18nImport];
        // `path.skip()` only stops Babel from visiting the children; the
        // function goes on below.
      }
      ghost var b0 := body;
      assert b0 == Seeded(old(body));
      var i18n := FirstImportOf(body, I18nSource);
      var vue := FirstImportOf(body, VueSource);
      if i18n.None? {
        body := [I18nImport] + body;
      } else {
        PushIfMissing(i18n.value, UseI18n);
      }
      ghost var b1 := if i18n.Some? then ExtendImport(b0, i18n.value, [UseI18n]) else b0;
      ghost var pre := if i18n.None? then [I18nImport] else [];
      assert body == pre + b1;
      if vue.None? {
        body := [VueImport] + body;
      } else {
        // The declaration `find` returned has moved one place right if a
        // 'vue-i18n' declaration was unshifted in front of it.
        var at := if i18n.None? then vue.value + 1 else vue.value;
        assert body[at] == b1[vue.value] == b0[vue.value];
        PushIfMissing(at, RefName);
        PushIfMissing(at, ComputedName);
        VueStep(pre, b1, vue.value);
      }
      assert body == Prepended(b0) + Extended(b0);
      assert WithImports(old(body)) == Prepended(b0) + Extended(b0);
      WithImportsComplete(old(body));
    }

    /** The `Program` visitor. */
    method Visit()
      modifies this
      ensures body == Processed(old(body))
      ensures ImportsComplete(body)
    {
      AddImportStatement();
      if HasExportDefault(body) {
        body := InjectSetups(body);
      } else {
        InsertBinding();
      }
      ProcessedImportsComplete(old(body));
    }

    /** `addVariableDeclaration(path.node.body)`: splice the binding into
        the top-level list at the index `findIndex` answers, unless the
        guard finds one already. */
    method InsertBinding()
      modifies this
      ensures body == AddVariableDeclaration(old(body))
      ensures HasTBinding(body)
    {
      BindingPresentAfter(body);
      if !HasTBinding(body) {
        var idx := FirstNonImport(body);
        var k := JsArray.SpliceStart(|body|, idx);
        body := body[..k] + [Binding] + body[k..];
      }
    }
  }

  // ---------------------------------------------------------------------
  // Top-level statements around the insertions

  /** Pushing `ref` and then `computed` onto the declaration at `v`, behind
      the prefix `pre`, is the extension of that declaration by both. */
  lemma VueStep(pre: seq<Stmt>, b1: seq<Stmt>, v: nat)
    requires v < |b1| && b1[v].Import?
    ensures var at := |pre| + v;
            var c := pre + b1;
            var c1 := ExtendImport(c, at, [RefName]);
            ExtendImport(c1, at, [ComputedName]) == pre + ExtendImport(b1, v, [RefName, ComputedName])
  {
    var s := b1[v].specs;
    AppendMissingOne(s, RefName);
    var s1 := AppendMissing(s, [RefName]);
    AppendMissingOne(s1, ComputedName);
    AppendMissingTwo(s, RefName, ComputedName);
    HasImportedMemberPush(s, Named(RefName, RefName), ComputedName);
    assert s + [] == s;
    assert s1 + [] == s1;
    UpdateBehindPrefix(pre, b1, v, Import(b1[v].source, s1));
    UpdateBehindPrefix(pre, b1[v := Import(b1[v].source, s1)], v, Import(b1[v].source, AppendMissing(s1, [ComputedName])));
  }

  lemma UpdateBehindPrefix(pre: seq<Stmt>, b: seq<Stmt>, k: nat, x: Stmt)
    requires k < |b|
    ensures (pre + b)[|pre| + k := x] == pre + b[k := x]
  {
  }

  /** Two lists that hold the same statements wherever either holds an
      import find the same governing declarations. */
  lemma SameImportsSameGovernors(b: seq<Stmt>, c: seq<Stmt>, source: string)
    requires |b| == |c|
    requires forall i :: 0 <= i < |b| && (b[i].Import? || c[i].Import?) ==> b[i] == c[i]
    ensures FirstImportOf(b, source) == FirstImportOf(c, source)
  {
    var r := FirstImportOf(b, source);
    FirstImportOfFirst(b, source);
    FirstImportOfFirst(c, source);
    if r.Some? {
      FirstImportOfAt(c, source, r.value);
    }
  }

  /** Inserting a statement that is not an import keeps the governing
      declarations, one place further right if they were behind it. */
  lemma InsertKeepsGovernors(b: seq<Stmt>, k: nat, x: Stmt, source: string)
    requires k <= |b| && !x.Import?
    ensures var r := b[..k] + [x] + b[k..];
            match FirstImportOf(b, source)
            case None => FirstImportOf(r, source).None?
            case Some(j) => FirstImportOf(r, source) == Some(if j < k then j else j + 1)
                            && r[if j < k then j else j + 1] == b[j]
  {
    var r := b[..k] + [x] + b[k..];
    assert forall i :: 0 <= i < k ==> r[i] == b[i];
    assert forall i :: k < i < |r| ==> r[i] == b[i - 1];
    FirstImportOfFirst(b, source);
    match FirstImportOf(b, source)
    case None =>
      FirstImportOfFirst(r, source);
    case Some(j) =>
      FirstImportOfAt(r, source, if j < k then j else j + 1);
  }

  lemma AddVariableDeclarationKeepsImports(b: seq<Stmt>)
    requires ImportsComplete(b)
    ensures ImportsComplete(AddVariableDeclaration(b))
  {
    if !HasTBinding(b) {
      var k := JsArray.SpliceStart(|b|, FirstNonImport(b));
      InsertKeepsGovernors(b, k, Binding, I18nSource);
      InsertKeepsGovernors(b, k, Binding, VueSource);
    }
  }

  lemma InjectSetupsShape(b: seq<Stmt>)
    ensures var r := InjectSetups(b);
            |r| == |b|
            && forall i :: 0 <= i < |b| ==> r[i].ExportDefault? == b[i].ExportDefault?
                                            && (!b[i].ExportDefault? ==> r[i] == b[i])
                                            && !DeclaresT(r[i]) == !DeclaresT(b[i])
  {
  }

  lemma InjectSetupsKeepsImports(b: seq<Stmt>)
    requires ImportsComplete(b)
    ensures ImportsComplete(InjectSetups(b))
  {
    InjectSetupsShape(b);
    SameImportsSameGovernors(b, InjectSetups(b), I18nSource);
    SameImportsSameGovernors(b, InjectSetups(b), VueSource);
  }

  /** The imports end up complete at top level whichever way the binding
      is dispatched. */
  lemma ProcessedImportsComplete(b: seq<Stmt>)
    ensures ImportsComplete(Processed(b))
  {
    var w := WithImports(b);
    WithImportsComplete(b);
    if HasExportDefault(w) {
      InjectSetupsKeepsImports(w);
    } else {
      AddVariableDeclarationKeepsImports(w);
    }
  }

  lemma WithImportsNonImports(b: seq<Stmt>)
    requires b != []
    ensures var r := WithImports(b);
            var off := |Prepended(b)|;
            |r| == |b| + off
            && (forall j :: 0 <= j < off ==> r[j].Import?)
            && (forall j :: 0 <= j < |b| ==> r[off + j].Import? == b[j].Import? && (!b[j].Import? ==> r[off + j] == b[j]))
  {
    WithImportsLayout(b);
  }

  /** The import injection touches only import declarations: it neither
      adds nor removes an `export default`. */
  lemma WithImportsKeepsExportDefault(b: seq<Stmt>)
    ensures HasExportDefault(WithImports(b)) == HasExportDefault(b)
  {
    if b == [] {
      EmptyBodySeeded();
    } else if HasExportDefault(b) {
      ExportDefaultSurvivesImports(b);
    } else if HasExportDefault(WithImports(b)) {
      ExportDefaultComesFromBody(b);
    }
  }

  lemma ExportDefaultSurvivesImports(b: seq<Stmt>)
    requires b != [] && HasExportDefault(b)
    ensures HasExportDefault(WithImports(b))
  {
    var r := WithImports(b);
    WithImportsNonImports(b);
    var off := |Prepended(b)|;
    var j :| 0 <= j < |b| && b[j].ExportDefault?;
    assert r[off + j].ExportDefault?;
  }

  lemma ExportDefaultComesFromBody(b: seq<Stmt>)
    requires b != [] && HasExportDefault(WithImports(b))
    ensures HasExportDefault(b)
  {
    var r := WithImports(b);
    WithImportsNonImports(b);
    var off := |Prepended(b)|;
    var j :| 0 <= j < |r| && r[j].ExportDefault?;
    assert j >= off;
    assert r[off + (j - off)] == b[j - off];
    assert b[j - off].ExportDefault?;
  }

  /** Nor does it add or remove a `{ t } = useI18n()` binding. */
  lemma WithImportsKeepsTBinding(b: seq<Stmt>)
    ensures HasTBinding(WithImports(b)) == HasTBinding(b)
  {
    if b == [] {
      EmptyBodySeeded();
      assert !DeclaresT(VueImport) && !DeclaresT(I18nImport);
    } else if HasTBinding(b) {
      TBindingSurvivesImports(b);
    } else if HasTBinding(WithImports(b)) {
      TBindingComesFromBody(b);
    }
  }

  lemma TBindingSurvivesImports(b: seq<Stmt>)
    requires b != [] && HasTBinding(b)
    ensures HasTBinding(WithImports(b))
  {
    var r := WithImports(b);
    WithImportsNonImports(b);
    var off := |Prepended(b)|;
    var j :| 0 <= j < |b| && DeclaresT(b[j]);
    assert DeclaresT(r[off + j]);
  }

  lemma TBindingComesFromBody(b: seq<Stmt>)
    requires b != [] && HasTBinding(WithImports(b))
    ensures HasTBinding(b)
  {
    var r := WithImports(b);
    var j :| 0 <= j < |r| && DeclaresT(r[j]);
    WithImportsFromBody(b, j);
    assert DeclaresT(b[j - |Prepended(b)|]);
  }

  /** A statement of the result that is not an import is the body's own. */
  lemma WithImportsFromBody(b: seq<Stmt>, j: nat)
    requires b != [] && j < |WithImports(b)| && !WithImports(b)[j].Import?
    ensures j >= |Prepended(b)| && WithImports(b)[j] == b[j - |Prepended(b)|]
  {
    var r := WithImports(b);
    WithImportsNonImports(b);
    var off := |Prepended(b)|;
    assert j >= off;
    assert r[off + (j - off)] == b[j - off];
  }

  // ---------------------------------------------------------------------
  // Dispatch

  /** With an `export default` in the body, no binding is added at top
      level: the top-level list keeps its length, every statement other than
      an `export default` is the one the import injection left there, and
      every `export default` is walked (`WalkSetupInserts` says what each
      `setup` body becomes). Outside the `setup` bodies the default export
      is unchanged; afterwards each `setup` method inside it, at any depth,
      declares `{ t }` from `useI18n()`; and a default export is left
      exactly as it was when all its `setup` methods already did. */
  lemma {:induction false} ExportDefaultDispatch(b: seq<Stmt>)
    requires HasExportDefault(b)
    ensures var r := Processed(b);
            var w := WithImports(b);
            |r| == |w|
            && (forall i :: 0 <= i < |w| && !w[i].ExportDefault? ==> r[i] == w[i])
            && (forall i :: 0 <= i < |w| && w[i].ExportDefault? ==> r[i] == ExportDefault(WalkExpr(w[i].decl)))
            && (forall i :: 0 <= i < |w| && w[i].ExportDefault? ==> SkelExpr(r[i].decl) == SkelExpr(w[i].decl))
            && (forall i :: 0 <= i < |r| && r[i].ExportDefault? ==> SetupsBoundExpr(r[i].decl))
            && (forall i :: 0 <= i < |w| && w[i].ExportDefault? ==> (r[i] == w[i] <==> SetupsBoundExpr(w[i].decl)))
            && HasTBinding(r) == HasTBinding(b)
  {
    var w := WithImports(b);
    WithImportsKeepsExportDefault(b);
    WithImportsKeepsTBinding(b);
    var r := InjectSetups(w);
    InjectSetupsShape(w);
    forall i | 0 <= i < |r| && r[i].ExportDefault? ensures SetupsBoundExpr(r[i].decl) {
      WalkBindsStmt(w[i]);
    }
    forall i | 0 <= i < |w| && w[i].ExportDefault? ensures r[i] == w[i] <==> SetupsBoundExpr(w[i].decl) {
      WalkFixpointExpr(w[i].decl);
    }
    forall i | 0 <= i < |w| && w[i].ExportDefault? ensures SkelExpr(r[i].decl) == SkelExpr(w[i].decl) {
      WalkKeepsSkelExpr(w[i].decl);
    }
    if HasTBinding(r) {
      var j :| 0 <= j < |r| && DeclaresT(r[j]);
      assert DeclaresT(w[j]);
    }
    if HasTBinding(w) {
      var j :| 0 <= j < |w| && DeclaresT(w[j]);
      assert DeclaresT(r[j]);
    }
  }

  /** Without an `export default`, the binding goes into the top-level list:
      afterwards one exists there, and exactly one statement was added for
      it unless the body already had one. */
  lemma {:induction false} TopLevelDispatch(b: seq<Stmt>)
    requires !HasExportDefault(b)
    ensures var r := Processed(b);
            HasTBinding(r)
            && |r| == |WithImports(b)| + (if HasTBinding(b) then 0 else 1)
  {
    var w := WithImports(b);
    WithImportsKeepsExportDefault(b);
    WithImportsKeepsTBinding(b);
    BindingPresentAfter(w);
    if !HasTBinding(w) {
      JsArray.SpliceInsertShape(w, FirstNonImport(w), Binding);
    }
  }

  lemma InjectSetupsIdempotent(w: seq<Stmt>)
    ensures InjectSetups(InjectSetups(w)) == InjectSetups(w)
  {
    var r := InjectSetups(w);
    var rr := InjectSetups(r);
    InjectSetupsShape(w);
    forall i | 0 <= i < |r| ensures rr[i] == r[i] {
      if w[i].ExportDefault? {
        WalkStmtIdempotent(w[i]);
      }
    }
  }

  lemma AddVariableDeclarationNoExportDefault(w: seq<Stmt>)
    requires !HasExportDefault(w)
    ensures !HasExportDefault(AddVariableDeclaration(w))
  {
    if !HasTBinding(w) {
      var r := AddVariableDeclaration(w);
      var k := JsArray.SpliceStart(|w|, FirstNonImport(w));
      JsArray.SpliceInsertShape(w, FirstNonImport(w), Binding);
      forall i | 0 <= i < |r| ensures !r[i].ExportDefault? {
        if i < k {
          assert r[i] == w[i];
        } else if i > k {
          assert r[i] == w[i - 1];
        }
      }
    }
  }

  /** Running the whole visitor a second time changes nothing. */
  lemma {:induction false} ProcessedIdempotent(b: seq<Stmt>)
    ensures Processed(Processed(b)) == Processed(b)
  {
    var w := WithImports(b);
    var r := Processed(b);
    ProcessedImportsComplete(b);
    CompleteIsFixpoint(r);
    assert WithImports(r) == r;
    if HasExportDefault(w) {
      assert r == InjectSetups(w);
      InjectSetupsShape(w);
      var j :| 0 <= j < |w| && w[j].ExportDefault?;
      assert r[j].ExportDefault?;
      assert HasExportDefault(r);
      assert Processed(r) == InjectSetups(r);
      InjectSetupsIdempotent(w);
    } else {
      assert r == AddVariableDeclaration(w);
      AddVariableDeclarationNoExportDefault(w);
      assert Processed(r) == AddVariableDeclaration(r);
      AddVariableDeclarationIdempotent(w);
    }
  }
}
