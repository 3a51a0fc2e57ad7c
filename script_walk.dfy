/**
 The traversal of an `export default` declaration: every object method
 reachable in it whose kind is `method` and whose key is the identifier
 `setup` receives the `const { t } = useI18n()` binding in its body, however
 deeply it is nested (Babel's `traverse` visits every `ObjectMethod` in the
 subtree, inside call arguments, property values, function bodies and the
 bodies of other methods).
 */
module ScriptWalk {
  import opened Ast
  import JsArray
  import opened ScriptBinding

  /** `node.kind === 'method' && node.key.type === 'Identifier' && node.key.name === 'setup'` */
  predicate IsSetup(m: Member)
  {
    m.Method? && m.kind == MethodFn && m.key.KeyIdent? && m.key.name == SetupName
  }

  // The walk rebuilds every node it passes; only method bodies change.
  // Babel runs the visitor when it enters a method and then walks the new
  // body; here the body is walked first and the binding added after, which
  // `WalkCommutes` shows gives the same statement list.

  function WalkExpr(e: Expr): Expr
    decreases e
  {
    match e
    case Call(c, args) => Call(WalkExpr(c), WalkExprs(args))
    case Object(ms) => Object(WalkMembers(ms))
    case Func(body) => Func(WalkStmts(body))
    case Ident(_) => e
    case StrLit(_) => e
    case OtherExpr => e
  }

  function WalkExprs(es: seq<Expr>): seq<Expr>
    decreases es
  {
    seq(|es|, i requires 0 <= i < |es| => WalkExpr(es[i]))
  }

  function WalkMember(m: Member): Member
    decreases m
  {
    match m
    case Method(kind, key, body) =>
      Method(kind, key, if IsSetup(m) then AddVariableDeclaration(WalkStmts(body)) else WalkStmts(body))
    case Property(key, value) => Property(key, WalkExpr(value))
  }

  function WalkMembers(ms: seq<Member>): seq<Member>
    decreases ms
  {
    seq(|ms|, i requires 0 <= i < |ms| => WalkMember(ms[i]))
  }

  function WalkDecl(d: Declarator): Declarator
    decreases d
  {
    Declarator(d.id, if d.init.Some? then Some(WalkExpr(d.init.value)) else None)
  }

  function WalkStmt(s: Stmt): Stmt
    decreases s
  {
    match s
    case VarDecl(kind, decls) => VarDecl(kind, seq(|decls|, i requires 0 <= i < |decls| => WalkDecl(decls[i])))
    case ExportDefault(decl) => ExportDefault(WalkExpr(decl))
    case ExprStmt(expr) => ExprStmt(WalkExpr(expr))
    case Import(_, _) => s
    case OtherStmt => s
  }

  function WalkStmts(ss: seq<Stmt>): seq<Stmt>
    decreases ss
  {
    seq(|ss|, i requires 0 <= i < |ss| => WalkStmt(ss[i]))
  }

  // ---------------------------------------------------------------------
  // What the walk leaves alone

  lemma WalkDeclaresT(s: Stmt)
    ensures WalkStmt(s).Import? == s.Import? && (s.Import? ==> WalkStmt(s) == s)
    ensures WalkStmt(s).ExportDefault? == s.ExportDefault?
    ensures WalkStmt(s).VarDecl? == s.VarDecl? && WalkStmt(s).ExprStmt? == s.ExprStmt?
    ensures DeclaresT(WalkStmt(s)) == DeclaresT(s)
  {
    if s.VarDecl? {
      var w := WalkStmt(s);
      forall j | 0 <= j < |s.decls|
        ensures IsTDeclarator(w.decls[j]) == IsTDeclarator(s.decls[j])
      {
        var d := s.decls[j];
        assert w.decls[j] == WalkDecl(d);
        if d.init.Some? {
          WalkExprShape(d.init.value);
          if d.init.value.Call? {
            WalkExprShape(d.init.value.callee);
          }
        }
      }
      if DeclaresT(s) {
        var j :| 0 <= j < |s.decls| && IsTDeclarator(s.decls[j]);
        assert IsTDeclarator(w.decls[j]);
      }
      if DeclaresT(w) {
        var j :| 0 <= j < |w.decls| && IsTDeclarator(w.decls[j]);
        assert IsTDeclarator(s.decls[j]);
      }
    }
  }

  lemma WalkExprShape(e: Expr)
    ensures WalkExpr(e).Call? == e.Call? && (e.Call? ==> WalkExpr(e).callee == WalkExpr(e.callee))
    ensures WalkExpr(e).Ident? == e.Ident? && (e.Ident? ==> WalkExpr(e) == e)
  {
  }

  lemma WalkKeepsBinding()
    ensures WalkStmt(Binding) == Binding
  {
    assert WalkExprs([]) == [];
    assert WalkDecl(Binding.decls[0]) == Binding.decls[0];
  }

  /** The walk keeps the length of the list and every statement's kind,
      and adds or removes no `{ t } = useI18n()` declarator in it, so the
      guard and the insertion index of `addVariableDeclaration` see the same
      thing before and after it. */
  lemma WalkKeepsGuard(b: seq<Stmt>)
    ensures |WalkStmts(b)| == |b|
    ensures forall i :: 0 <= i < |b| ==>
              WalkStmts(b)[i].Import? == b[i].Import? && WalkStmts(b)[i].VarDecl? == b[i].VarDecl?
              && WalkStmts(b)[i].ExportDefault? == b[i].ExportDefault? && WalkStmts(b)[i].ExprStmt? == b[i].ExprStmt?
    ensures HasTBinding(WalkStmts(b)) == HasTBinding(b)
    ensures FirstNonImport(WalkStmts(b)) == FirstNonImport(b)
  {
    var w := WalkStmts(b);
    assert forall i :: 0 <= i < |b| ==> w[i] == WalkStmt(b[i]);
    forall i | 0 <= i < |b|
      ensures DeclaresT(w[i]) == DeclaresT(b[i]) && w[i].Import? == b[i].Import? && w[i].VarDecl? == b[i].VarDecl?
              && w[i].ExportDefault? == b[i].ExportDefault? && w[i].ExprStmt? == b[i].ExprStmt?
    {
      WalkDeclaresT(b[i]);
    }
    assert HasTBinding(w) == HasTBinding(b) by {
      if HasTBinding(b) {
        var i :| 0 <= i < |b| && DeclaresT(b[i]);
        assert DeclaresT(w[i]);
      }
      if HasTBinding(w) {
        var i :| 0 <= i < |w| && DeclaresT(w[i]);
        assert DeclaresT(b[i]);
      }
    }
    SameKindsSameIndex(b, w);
  }

  /** Two lists with an import at exactly the same positions have the same
      first non-import. */
  lemma {:induction false} SameKindsSameIndex(b: seq<Stmt>, c: seq<Stmt>)
    requires |b| == |c| && forall i :: 0 <= i < |b| ==> b[i].Import? == c[i].Import?
    ensures FirstNonImport(b) == FirstNonImport(c)
  {
    if b != [] && b[0].Import? {
      assert forall i :: 0 <= i < |b| - 1 ==> b[1..][i] == b[i + 1] && c[1..][i] == c[i + 1];
      SameKindsSameIndex(b[1..], c[1..]);
    }
  }

  /** Adding the binding on entry and then walking the new body, as Babel
      does, gives the same list as walking the body and then adding it. */
  lemma WalkCommutes(b: seq<Stmt>)
    ensures WalkStmts(AddVariableDeclaration(b)) == AddVariableDeclaration(WalkStmts(b))
  {
    WalkKeepsGuard(b);
    if !HasTBinding(b) {
      var w := WalkStmts(b);
      var k := JsArray.SpliceStart(|b|, FirstNonImport(b));
      JsArray.SpliceInsertShape(b, FirstNonImport(b), Binding);
      JsArray.SpliceInsertShape(w, FirstNonImport(b), Binding);
      WalkKeepsBinding();
      var a := AddVariableDeclaration(b);
      var l := WalkStmts(a);
      var r := AddVariableDeclaration(w);
      assert |l| == |r|;
      forall i | 0 <= i < |l| ensures l[i] == r[i] {
        assert l[i] == WalkStmt(a[i]);
        if i < k {
          assert a[i] == b[i] && r[i] == w[i] == WalkStmt(b[i]);
        } else if i == k {
          assert a[i] == Binding && r[i] == Binding;
        } else {
          assert a[i] == b[i - 1] && r[i] == w[i - 1] == WalkStmt(b[i - 1]);
        }
      }
    }
  }

  // ---------------------------------------------------------------------
  // Every setup method is reached

  /** Every `setup` method reachable in the node has the binding in its body. */
  ghost predicate SetupsBoundExpr(e: Expr)
    decreases e
  {
    match e
    case Call(c, args) => SetupsBoundExpr(c) && forall i :: 0 <= i < |args| ==> SetupsBoundExpr(args[i])
    case Object(ms) => forall i :: 0 <= i < |ms| ==> SetupsBoundMember(ms[i])
    case Func(body) => SetupsBoundStmts(body)
    case Ident(_) => true
    case StrLit(_) => true
    case OtherExpr => true
  }

  ghost predicate SetupsBoundMember(m: Member)
    decreases m
  {
    match m
    case Method(_, _, body) => (IsSetup(m) ==> HasTBinding(body)) && SetupsBoundStmts(body)
    case Property(_, value) => SetupsBoundExpr(value)
  }

  ghost predicate SetupsBoundStmt(s: Stmt)
    decreases s
  {
    match s
    case VarDecl(_, decls) =>
      forall i :: 0 <= i < |decls| ==> decls[i].init.Some? ==> SetupsBoundExpr(decls[i].init.value)
    case ExportDefault(decl) => SetupsBoundExpr(decl)
    case ExprStmt(expr) => SetupsBoundExpr(expr)
    case Import(_, _) => true
    case OtherStmt => true
  }

  ghost predicate SetupsBoundStmts(ss: seq<Stmt>)
    decreases ss
  {
    forall i :: 0 <= i < |ss| ==> SetupsBoundStmt(ss[i])
  }

  lemma AddVariableDeclarationKeepsBound(b: seq<Stmt>)
    requires SetupsBoundStmts(b)
    ensures SetupsBoundStmts(AddVariableDeclaration(b))
  {
    if !HasTBinding(b) {
      var k := JsArray.SpliceStart(|b|, FirstNonImport(b));
      JsArray.SpliceInsertShape(b, FirstNonImport(b), Binding);
      var r := AddVariableDeclaration(b);
      assert SetupsBoundStmt(Binding);
      forall i | 0 <= i < |r| ensures SetupsBoundStmt(r[i]) {
        if i < k {
          assert r[i] == b[i];
        } else if i > k {
          assert r[i] == b[i - 1];
        }
      }
    }
  }

  /** After the walk, every `setup` method anywhere in the node, nested or
      not, declares `{ t }` from `useI18n()` in its body. */
  lemma {:induction false} WalkBindsExpr(e: Expr)
    ensures SetupsBoundExpr(WalkExpr(e))
    decreases e
  {
    match e
    case Call(c, args) =>
      WalkBindsExpr(c);
      forall i | 0 <= i < |args| ensures SetupsBoundExpr(WalkExprs(args)[i]) {
        WalkBindsExpr(args[i]);
      }
    case Object(ms) =>
      forall i | 0 <= i < |ms| ensures SetupsBoundMember(WalkMembers(ms)[i]) {
        WalkBindsMember(ms[i]);
      }
    case Func(body) =>
      WalkBindsStmts(body);
    case Ident(_) =>
    case StrLit(_) =>
    case OtherExpr =>
  }

  lemma {:induction false} WalkBindsMember(m: Member)
    ensures SetupsBoundMember(WalkMember(m))
    decreases m
  {
    match m
    case Method(kind, key, body) =>
      WalkBindsStmts(body);
      if IsSetup(m) {
        BindingPresentAfter(WalkStmts(body));
        AddVariableDeclarationKeepsBound(WalkStmts(body));
      }
    case Property(key, value) =>
      WalkBindsExpr(value);
  }

  lemma {:induction false} WalkBindsStmts(ss: seq<Stmt>)
    ensures SetupsBoundStmts(WalkStmts(ss))
    decreases ss
  {
    forall i | 0 <= i < |ss| ensures SetupsBoundStmt(WalkStmts(ss)[i]) {
      WalkBindsStmt(ss[i]);
    }
  }

  lemma {:induction false} WalkBindsStmt(s: Stmt)
    ensures SetupsBoundStmt(WalkStmt(s))
    decreases s
  {
    match s
    case VarDecl(kind, decls) =>
      var w := WalkStmt(s);
      forall i | 0 <= i < |decls| && decls[i].init.Some?
        ensures w.decls[i].init.Some? && SetupsBoundExpr(w.decls[i].init.value)
      {
        assert w.decls[i] == WalkDecl(decls[i]);
        WalkBindsExpr(decls[i].init.value);
      }
    case ExportDefault(decl) => WalkBindsExpr(decl);
    case ExprStmt(expr) => WalkBindsExpr(expr);
    case Import(_, _) =>
    case OtherStmt =>
  }

  // ---------------------------------------------------------------------
  // What the walk does to a setup body, and what it leaves alone

  /** A `setup` method keeps its kind and key; its walked body keeps its
      length; when the body already declares `{ t }` the walked body is all
      there is, and otherwise the binding is added once, at the index
      `splice` derives from the first non-import of the original body, with
      the walked statements kept in their order around it. */
  lemma WalkSetupInserts(m: Member)
    requires IsSetup(m)
    ensures var w := WalkStmts(m.body);
            var k := JsArray.SpliceStart(|m.body|, FirstNonImport(m.body));
            var r := WalkMember(m);
            r.Method? && r.kind == m.kind && r.key == m.key
            && |w| == |m.body|
            && (HasTBinding(m.body) ==> r.body == w)
            && (!HasTBinding(m.body) ==> r.body == w[..k] + [Binding] + w[k..])
  {
    WalkKeepsGuard(m.body);
  }

  /** The walk leaves a node unchanged exactly when every `setup` method in
      it already declares the binding: it touches nothing but the bodies of
      `setup` methods that lack one, whatever else the node holds. */
  lemma {:induction false} WalkFixpointExpr(e: Expr)
    ensures WalkExpr(e) == e <==> SetupsBoundExpr(e)
    decreases e
  {
    WalkBindsExpr(e);
    match e
    case Call(c, args) =>
      WalkFixpointExpr(c);
      forall i | 0 <= i < |args| ensures WalkExprs(args)[i] == args[i] <==> SetupsBoundExpr(args[i]) {
        WalkFixpointExpr(args[i]);
      }
      if SetupsBoundExpr(e) {
        assert WalkExprs(args) == args;
      }
    case Object(ms) =>
      forall i | 0 <= i < |ms| ensures WalkMembers(ms)[i] == ms[i] <==> SetupsBoundMember(ms[i]) {
        WalkFixpointMember(ms[i]);
      }
      if SetupsBoundExpr(e) {
        assert WalkMembers(ms) == ms;
      }
    case Func(body) =>
      WalkFixpointStmts(body);
    case Ident(_) =>
    case StrLit(_) =>
    case OtherExpr =>
  }

  lemma {:induction false} WalkFixpointMember(m: Member)
    ensures WalkMember(m) == m <==> SetupsBoundMember(m)
    decreases m
  {
    WalkBindsMember(m);
    match m
    case Method(kind, key, body) =>
      WalkFixpointStmts(body);
    case Property(key, value) =>
      WalkFixpointExpr(value);
  }

  lemma {:induction false} WalkFixpointStmts(ss: seq<Stmt>)
    ensures WalkStmts(ss) == ss <==> SetupsBoundStmts(ss)
    decreases ss
  {
    WalkBindsStmts(ss);
    forall i | 0 <= i < |ss| ensures WalkStmts(ss)[i] == ss[i] <==> SetupsBoundStmt(ss[i]) {
      WalkFixpointStmt(ss[i]);
    }
    if SetupsBoundStmts(ss) {
      assert WalkStmts(ss) == ss;
    }
  }

  lemma {:induction false} WalkFixpointStmt(s: Stmt)
    ensures WalkStmt(s) == s <==> SetupsBoundStmt(s)
    decreases s
  {
    WalkBindsStmt(s);
    match s
    case VarDecl(kind, decls) =>
      var w := WalkStmt(s);
      forall i | 0 <= i < |decls| && decls[i].init.Some?
        ensures w.decls[i] == decls[i] <==> SetupsBoundExpr(decls[i].init.value)
      {
        assert w.decls[i] == WalkDecl(decls[i]);
        WalkFixpointExpr(decls[i].init.value);
      }
      if SetupsBoundStmt(s) {
        forall i | 0 <= i < |decls| ensures w.decls[i] == decls[i] {
          assert w.decls[i] == WalkDecl(decls[i]);
        }
        assert w.decls == decls;
      }
    case ExportDefault(decl) => WalkFixpointExpr(decl);
    case ExprStmt(expr) => WalkFixpointExpr(expr);
    case Import(_, _) =>
    case OtherStmt =>
  }

  // ---------------------------------------------------------------------
  // Everything outside the setup bodies survives the walk

  /** The node with the body of every `setup` method emptied: what the walk
      must leave as it found it. */
  function SkelExpr(e: Expr): Expr
    decreases e
  {
    match e
    case Call(c, args) => Call(SkelExpr(c), seq(|args|, i requires 0 <= i < |args| => SkelExpr(args[i])))
    case Object(ms) => Object(seq(|ms|, i requires 0 <= i < |ms| => SkelMember(ms[i])))
    case Func(body) => Func(SkelStmts(body))
    case Ident(_) => e
    case StrLit(_) => e
    case OtherExpr => e
  }

  function SkelMember(m: Member): Member
    decreases m
  {
    match m
    case Method(kind, key, body) => Method(kind, key, if IsSetup(m) then [] else SkelStmts(body))
    case Property(key, value) => Property(key, SkelExpr(value))
  }

  function SkelDecl(d: Declarator): Declarator
    decreases d
  {
    Declarator(d.id, if d.init.Some? then Some(SkelExpr(d.init.value)) else None)
  }

  function SkelStmt(s: Stmt): Stmt
    decreases s
  {
    match s
    case VarDecl(kind, decls) => VarDecl(kind, seq(|decls|, i requires 0 <= i < |decls| => SkelDecl(decls[i])))
    case ExportDefault(decl) => ExportDefault(SkelExpr(decl))
    case ExprStmt(expr) => ExprStmt(SkelExpr(expr))
    case Import(_, _) => s
    case OtherStmt => s
  }

  function SkelStmts(ss: seq<Stmt>): seq<Stmt>
    decreases ss
  {
    seq(|ss|, i requires 0 <= i < |ss| => SkelStmt(ss[i]))
  }

  /** The walk changes nothing but the bodies of `setup` methods: every
      other method, property, call, function and statement, with its keys,
      names and literals, is the same afterwards, however deep. */
  lemma {:induction false} WalkKeepsSkelExpr(e: Expr)
    ensures SkelExpr(WalkExpr(e)) == SkelExpr(e)
    decreases e
  {
    match e
    case Call(c, args) =>
      WalkKeepsSkelExpr(c);
      var w := WalkExprs(args);
      forall i | 0 <= i < |args| ensures SkelExpr(w[i]) == SkelExpr(args[i]) {
        WalkKeepsSkelExpr(args[i]);
      }
      assert seq(|w|, i requires 0 <= i < |w| => SkelExpr(w[i]))
             == seq(|args|, i requires 0 <= i < |args| => SkelExpr(args[i]));
    case Object(ms) =>
      var w := WalkMembers(ms);
      forall i | 0 <= i < |ms| ensures SkelMember(w[i]) == SkelMember(ms[i]) {
        WalkKeepsSkelMember(ms[i]);
      }
      assert seq(|w|, i requires 0 <= i < |w| => SkelMember(w[i]))
             == seq(|ms|, i requires 0 <= i < |ms| => SkelMember(ms[i]));
    case Func(body) =>
      WalkKeepsSkelStmts(body);
    case Ident(_) =>
    case StrLit(_) =>
    case OtherExpr =>
  }

  lemma {:induction false} WalkKeepsSkelMember(m: Member)
    ensures SkelMember(WalkMember(m)) == SkelMember(m)
    decreases m
  {
    match m
    case Method(kind, key, body) =>
      if !IsSetup(m) {
        WalkKeepsSkelStmts(body);
      }
    case Property(key, value) =>
      WalkKeepsSkelExpr(value);
  }

  lemma {:induction false} WalkKeepsSkelStmts(ss: seq<Stmt>)
    ensures SkelStmts(WalkStmts(ss)) == SkelStmts(ss)
    decreases ss
  {
    var w := WalkStmts(ss);
    forall i | 0 <= i < |ss| ensures SkelStmt(w[i]) == SkelStmt(ss[i]) {
      WalkKeepsSkelStmt(ss[i]);
    }
  }

  lemma {:induction false} WalkKeepsSkelStmt(s: Stmt)
    ensures SkelStmt(WalkStmt(s)) == SkelStmt(s)
    decreases s
  {
    match s
    case VarDecl(kind, decls) =>
      var w := WalkStmt(s).decls;
      forall i | 0 <= i < |decls| ensures SkelDecl(w[i]) == SkelDecl(decls[i]) {
        assert w[i] == WalkDecl(decls[i]);
        if decls[i].init.Some? {
          WalkKeepsSkelExpr(decls[i].init.value);
        }
      }
      assert seq(|w|, i requires 0 <= i < |w| => SkelDecl(w[i]))
             == seq(|decls|, i requires 0 <= i < |decls| => SkelDecl(decls[i]));
    case ExportDefault(decl) => WalkKeepsSkelExpr(decl);
    case ExprStmt(expr) => WalkKeepsSkelExpr(expr);
    case Import(_, _) =>
    case OtherStmt =>
  }

  // ---------------------------------------------------------------------
  // A second walk changes nothing

  lemma {:induction false} WalkExprIdempotent(e: Expr)
    ensures WalkExpr(WalkExpr(e)) == WalkExpr(e)
    decreases e
  {
    match e
    case Call(c, args) =>
      WalkExprIdempotent(c);
      forall i | 0 <= i < |args| ensures WalkExpr(WalkExprs(args)[i]) == WalkExprs(args)[i] {
        WalkExprIdempotent(args[i]);
      }
    case Object(ms) =>
      forall i | 0 <= i < |ms| ensures WalkMember(WalkMembers(ms)[i]) == WalkMembers(ms)[i] {
        WalkMemberIdempotent(ms[i]);
      }
    case Func(body) =>
      WalkStmtsIdempotent(body);
    case Ident(_) =>
    case StrLit(_) =>
    case OtherExpr =>
  }

  lemma {:induction false} WalkMemberIdempotent(m: Member)
    ensures WalkMember(WalkMember(m)) == WalkMember(m)
    decreases m
  {
    match m
    case Method(kind, key, body) =>
      WalkStmtsIdempotent(body);
      if IsSetup(m) {
        var w := WalkStmts(body);
        WalkCommutes(w);
        AddVariableDeclarationIdempotent(w);
      }
    case Property(key, value) =>
      WalkExprIdempotent(value);
  }

  lemma {:induction false} WalkStmtsIdempotent(ss: seq<Stmt>)
    ensures WalkStmts(WalkStmts(ss)) == WalkStmts(ss)
    decreases ss
  {
    forall i | 0 <= i < |ss| ensures WalkStmt(WalkStmts(ss)[i]) == WalkStmts(ss)[i] {
      WalkStmtIdempotent(ss[i]);
    }
  }

  lemma {:induction false} WalkStmtIdempotent(s: Stmt)
    ensures WalkStmt(WalkStmt(s)) == WalkStmt(s)
    decreases s
  {
    match s
    case VarDecl(kind, decls) =>
      var w := WalkStmt(s);
      forall i | 0 <= i < |decls| ensures WalkDecl(w.decls[i]) == w.decls[i] {
        assert w.decls[i] == WalkDecl(decls[i]);
        if decls[i].init.Some? {
          WalkExprIdempotent(decls[i].init.value);
        }
      }
    case ExportDefault(decl) => WalkExprIdempotent(decl);
    case ExprStmt(expr) => WalkExprIdempotent(expr);
    case Import(_, _) =>
    case OtherStmt =>
  }
}
