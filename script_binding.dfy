/**
 The binding half of the declaration injector (`addVariableDeclaration`):
 unless some declarator already destructures `t` out of a call to
 `useI18n`, splice `const { t } = useI18n()` in at the index of the first
 statement that is not an import declaration.
 */
module ScriptBinding {
  import opened Ast
  import JsArray

  /** `{ …, t, … } = useI18n(…)`: the callee is the bare identifier `useI18n`
      and one property of the object pattern has the identifier key `t`
      (whatever local name it is bound to). */
  predicate IsTDeclarator(d: Declarator)
  {
    d.init.Some? && d.init.value.Call? && d.init.value.callee.Ident? && d.init.value.callee.name == UseI18n
    && d.id.ObjectPattern?
    && exists p :: 0 <= p < |d.id.props| && d.id.props[p].PatternProperty?
                   && d.id.props[p].key.KeyIdent? && d.id.props[p].key.name == TName
  }

  predicate DeclaresT(s: Stmt)
  {
    s.VarDecl? && exists j :: 0 <= j < |s.decls| && IsTDeclarator(s.decls[j])
  }

  /** The `node.some(…)` guard of lines 89-106. */
  predicate HasTBinding(b: seq<Stmt>)
  {
    exists i :: 0 <= i < |b| && DeclaresT(b[i])
  }

  /** `node.findIndex(n => n.type !== 'ImportDeclaration')`. */
  function FirstNonImport(b: seq<Stmt>): int
  {
    JsArray.FindIndex(b, (s: Stmt) => !s.Import?)
  }

  /** The statement list after `addVariableDeclaration`. */
  function AddVariableDeclaration(b: seq<Stmt>): seq<Stmt>
  {
    if HasTBinding(b) then b else JsArray.SpliceInsert(b, FirstNonImport(b), Binding)
  }

  /** The canonical statement is recognised by the guard. */
  lemma BindingDeclaresT()
    ensures DeclaresT(Binding)
  {
    assert IsTDeclarator(Binding.decls[0]) by {
      assert Binding.decls[0].id.props[0] == PatternProperty(KeyIdent(TName), TName);
    }
  }

  /** When a binding exists nothing is inserted; otherwise exactly one
      statement, the canonical binding, is inserted and every other
      statement keeps its relative order. It goes in front of the first
      statement that is not an import; when every statement is an import,
      `findIndex` answers -1 and `splice(-1, 0, …)` puts it in front of the
      LAST import; an empty list receives it as its only statement. */
  lemma {:induction false} BindingInsertedAt(b: seq<Stmt>)
    ensures var r := AddVariableDeclaration(b);
            (HasTBinding(b) ==> r == b)
            && (!HasTBinding(b) ==>
                  (forall k :: 0 <= k < |b| && !b[k].Import? && (forall j :: 0 <= j < k ==> b[j].Import?)
                     ==> r == b[..k] + [Binding] + b[k..])
                  && (|b| > 0 && (forall j :: 0 <= j < |b| ==> b[j].Import?)
                     ==> r == b[..|b| - 1] + [Binding] + [b[|b| - 1]])
                  && (b == [] ==> r == [Binding]))
  {
    if !HasTBinding(b) {
      var idx := FirstNonImport(b);
      forall k | 0 <= k < |b| && !b[k].Import? && (forall j :: 0 <= j < k ==> b[j].Import?)
        ensures idx == k
      {
      }
      if |b| > 0 && (forall j :: 0 <= j < |b| ==> b[j].Import?) {
        assert idx == -1;
        assert b[|b| - 1..] == [b[|b| - 1]];
      }
    }
  }

  /** After the call a matching binding exists. */
  lemma BindingPresentAfter(b: seq<Stmt>)
    ensures HasTBinding(AddVariableDeclaration(b))
  {
    if !HasTBinding(b) {
      var k := JsArray.SpliceStart(|b|, FirstNonImport(b));
      JsArray.SpliceInsertShape(b, FirstNonImport(b), Binding);
      BindingDeclaresT();
      assert DeclaresT(AddVariableDeclaration(b)[k]);
    }
  }

  /** A second call leaves the list unchanged. */
  lemma AddVariableDeclarationIdempotent(b: seq<Stmt>)
    ensures AddVariableDeclaration(AddVariableDeclaration(b)) == AddVariableDeclaration(b)
  {
    BindingPresentAfter(b);
  }
}
