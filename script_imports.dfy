/**
 The import half of the declaration injector (`addImportStatement`): make
 sure the program imports `useI18n` from 'vue-i18n' and `ref` and
 `computed` from 'vue', prepending a whole declaration when a module is not
 imported at all and appending a missing member to the first existing
 declaration of that module otherwise.
 */
module ScriptImports {
  import opened Ast

  predicate ImportOf(s: Stmt, source: string) { s.Import? && s.source == source }

  /** `imports.find(node => node.source.value === source)`, as the index of
      the found declaration in the statement list. */
  function FirstImportOf(b: seq<Stmt>, source: string): (r: Option<nat>)
    ensures r.Some? ==> r.value < |b| && ImportOf(b[r.value], source)
  {
    if b == [] then None
    else if ImportOf(b[0], source) then Some(0)
    else
      match FirstImportOf(b[1..], source)
      case None => None
      case Some(k) => Some(k + 1)
  }

  /** The found declaration is the first of its module, and nothing is
      found exactly when the body has no declaration of that module. */
  lemma {:induction false} FirstImportOfFirst(b: seq<Stmt>, source: string)
    ensures var r := FirstImportOf(b, source);
            (r.None? <==> forall j :: 0 <= j < |b| ==> !ImportOf(b[j], source))
            && (r.Some? ==> forall j :: 0 <= j < r.value ==> !ImportOf(b[j], source))
  {
    if b != [] && !ImportOf(b[0], source) {
      FirstImportOfFirst(b[1..], source);
      assert forall j :: 1 <= j < |b| ==> b[j] == b[1..][j - 1];
    }
  }

  /** Pushes, in order, every member of `ms` that `specs` does not import
      yet; each member is checked against the list as it stands then. */
  function AppendMissing(specs: seq<Specifier>, ms: seq<string>): seq<Specifier>
    decreases |ms|
  {
    if ms == [] then specs
    else AppendMissing(if HasImportedMember(specs, ms[0]) then specs else specs + [Named(ms[0], ms[0])], ms[1..])
  }

  /** The declaration at `k` with the missing members of `ms` pushed onto
      its specifier list. */
  function ExtendImport(b: seq<Stmt>, k: nat, ms: seq<string>): seq<Stmt>
    requires k < |b| && b[k].Import?
  {
    b[k := Import(b[k].source, AppendMissing(b[k].specs, ms))]
  }

  /** The body after the empty-body seeding of lines 24-34. */
  function Seeded(b: seq<Stmt>): seq<Stmt>
  {
    if |b| == 0 then [VueImport, I18nImport] else b
  }

  /** The declarations that are unshifted: 'vue-i18n' first, then 'vue',
      so 'vue' ends up in front. */
  function Prepended(b: seq<Stmt>): seq<Stmt>
  {
    (if FirstImportOf(b, VueSource).None? then [VueImport] else [])
    + (if FirstImportOf(b, I18nSource).None? then [I18nImport] else [])
  }

  /** The body with the existing governing declarations extended in place:
      'vue-i18n' with `useI18n`, then 'vue' with `ref` and `computed`. */
  function Extended(b: seq<Stmt>): (r: seq<Stmt>)
    ensures |r| == |b|
  {
    var i := FirstImportOf(b, I18nSource);
    var v := FirstImportOf(b, VueSource);
    var b1 := if i.Some? then ExtendImport(b, i.value, [UseI18n]) else b;
    if v.Some? then ExtendImport(b1, v.value, [RefName, ComputedName]) else b1
  }

  /** The body after `addImportStatement`. */
  function WithImports(b: seq<Stmt>): seq<Stmt>
  {
    Prepended(Seeded(b)) + Extended(Seeded(b))
  }

  lemma WithImportsUnseeded(b: seq<Stmt>)
    requires b != []
    ensures WithImports(b) == Prepended(b) + Extended(b)
  {
  }

  // ---------------------------------------------------------------------
  // Specifier lists

  lemma HasImportedMemberPush(specs: seq<Specifier>, x: Specifier, m: string)
    ensures HasImportedMember(specs + [x], m) <==> HasImportedMember(specs, m) || (x.Named? && x.imported == m)
  {
    var s := specs + [x];
    if HasImportedMember(specs, m) {
      var i :| 0 <= i < |specs| && specs[i].Named? && specs[i].imported == m;
      assert s[i] == specs[i];
    }
    if x.Named? && x.imported == m {
      assert s[|specs|] == x;
    }
    if HasImportedMember(s, m) {
      var i :| 0 <= i < |s| && s[i].Named? && s[i].imported == m;
      if i < |specs| { assert specs[i] == s[i]; }
    }
  }

  /** Appending the missing members of a two-member list adds each one at
      most once, first before second, and keeps the existing specifiers in
      front, untouched and in their order. */
  lemma {:induction false} AppendMissingTwo(specs: seq<Specifier>, a: string, c: string)
    requires a != c
    ensures AppendMissing(specs, [a, c])
            == specs + (if HasImportedMember(specs, a) then [] else [Named(a, a)])
                     + (if HasImportedMember(specs, c) then [] else [Named(c, c)])
  {
    var s1 := if HasImportedMember(specs, a) then specs else specs + [Named(a, a)];
    HasImportedMemberPush(specs, Named(a, a), c);
    assert HasImportedMember(s1, c) == HasImportedMember(specs, c);
    assert [a, c][1..] == [c];
    assert [c][1..] == [];
    calc {
      AppendMissing(specs, [a, c]);
      AppendMissing(s1, [c]);
      AppendMissing(if HasImportedMember(s1, c) then s1 else s1 + [Named(c, c)], []);
    }
  }

  lemma AppendMissingOne(specs: seq<Specifier>, a: string)
    ensures AppendMissing(specs, [a]) == specs + (if HasImportedMember(specs, a) then [] else [Named(a, a)])
  {
    assert [a][1..] == [];
  }

  lemma CountImportedPush(specs: seq<Specifier>, x: Specifier, m: string)
    ensures CountImported(specs + [x], m) == CountImported(specs, m) + (if x.Named? && x.imported == m then 1 else 0)
  {
    assert (specs + [x])[..|specs|] == specs;
  }

  /** After the appends, a managed member is imported exactly once if it
      was missing, and as often as before if it was there: an append never
      duplicates a member. Members outside `ms` are not touched. */
  lemma {:induction false} AppendMissingCount(specs: seq<Specifier>, ms: seq<string>, m: string)
    ensures CountImported(AppendMissing(specs, ms), m)
            == if m in ms && CountImported(specs, m) == 0 then 1 else CountImported(specs, m)
    decreases |ms|
  {
    if ms != [] {
      var s1 := if HasImportedMember(specs, ms[0]) then specs else specs + [Named(ms[0], ms[0])];
      CountImportedPositive(specs, ms[0]);
      if !HasImportedMember(specs, ms[0]) {
        CountImportedPush(specs, Named(ms[0], ms[0]), m);
      }
      AppendMissingCount(s1, ms[1..], m);
      assert m in ms <==> m == ms[0] || m in ms[1..];
    }
  }

  /** Nothing is appended when every member is already imported. */
  lemma {:induction false} AppendMissingComplete(specs: seq<Specifier>, ms: seq<string>)
    requires forall j :: 0 <= j < |ms| ==> HasImportedMember(specs, ms[j])
    ensures AppendMissing(specs, ms) == specs
    decreases |ms|
  {
    if ms != [] {
      assert HasImportedMember(specs, ms[0]);
      assert forall j :: 0 <= j < |ms[1..]| ==> ms[1..][j] == ms[j + 1];
      AppendMissingComplete(specs, ms[1..]);
    }
  }

  // ---------------------------------------------------------------------
  // Locating the governing declarations

  lemma FirstImportOfAt(b: seq<Stmt>, source: string, k: nat)
    requires k < |b| && ImportOf(b[k], source)
    requires forall j :: 0 <= j < k ==> !ImportOf(b[j], source)
    ensures FirstImportOf(b, source) == Some(k)
  {
    FirstImportOfFirst(b, source);
  }

  /** Prepending declarations of other modules shifts the found index. */
  lemma FirstImportOfShift(p: seq<Stmt>, b: seq<Stmt>, source: string)
    requires forall j :: 0 <= j < |p| ==> !ImportOf(p[j], source)
    ensures FirstImportOf(p + b, source)
            == match FirstImportOf(b, source) case None => None case Some(k) => Some(k + |p|)
  {
    var r := FirstImportOf(b, source);
    FirstImportOfFirst(b, source);
    if r.Some? {
      FirstImportOfAt(p + b, source, r.value + |p|);
    } else {
      FirstImportOfFirst(p + b, source);
      assert forall j :: |p| <= j < |p + b| ==> (p + b)[j] == b[j - |p|];
    }
  }

  /** Extending a declaration's specifiers changes no statement's kind and
      no declaration's source, so the same declarations are found. */
  lemma FirstImportOfExtend(b: seq<Stmt>, k: nat, ms: seq<string>, source: string)
    requires k < |b| && b[k].Import?
    ensures FirstImportOf(ExtendImport(b, k, ms), source) == FirstImportOf(b, source)
  {
    var e := ExtendImport(b, k, ms);
    assert forall j :: 0 <= j < |b| ==> (ImportOf(e[j], source) <==> ImportOf(b[j], source));
    var r := FirstImportOf(b, source);
    FirstImportOfFirst(b, source);
    FirstImportOfFirst(e, source);
    if r.Some? {
      FirstImportOfAt(e, source, r.value);
    }
  }

  // ---------------------------------------------------------------------
  // What addImportStatement guarantees

  /** An empty body is seeded with exactly the two canonical declarations;
      the code after `path.skip()` still runs but finds both complete. */
  lemma EmptyBodySeeded()
    ensures WithImports([]) == [VueImport, I18nImport]
  {
    var b0 := [VueImport, I18nImport];
    FirstImportOfAt(b0, I18nSource, 1);
    FirstImportOfAt(b0, VueSource, 0);
    assert HasImportedMember(b0[1].specs, UseI18n) by { assert b0[1].specs[0] == Named(UseI18n, UseI18n); }
    assert HasImportedMember(b0[0].specs, RefName) by { assert b0[0].specs[0] == Named(RefName, RefName); }
    assert HasImportedMember(b0[0].specs, ComputedName) by { assert b0[0].specs[1] == Named(ComputedName, ComputedName); }
    AppendMissingComplete(b0[1].specs, [UseI18n]);
    AppendMissingComplete(b0[0].specs, [RefName, ComputedName]);
    var b1 := ExtendImport(b0, 1, [UseI18n]);
    assert b1 == b0;
    assert ExtendImport(b1, 0, [RefName, ComputedName]) == b0;
    assert Prepended(b0) == [];
  }

  /** The 'vue-i18n' declaration after the call: a fresh `{ useI18n }`
      declaration when none existed, otherwise the first existing one with
      `useI18n` appended after its own specifiers if it lacked it. No second
      'vue-i18n' declaration is created when one exists. */
  lemma {:induction false} I18nImportEnsured(b: seq<Stmt>)
    requires b != []
    ensures var r := WithImports(b);
            var off := |Prepended(b)|;
            match FirstImportOf(b, I18nSource)
            case None =>
              FirstImportOf(r, I18nSource) == Some(off - 1) && r[off - 1] == I18nImport
            case Some(k) =>
              FirstImportOf(r, I18nSource) == Some(k + off)
              && r[k + off] == Import(I18nSource, b[k].specs + (if HasImportedMember(b[k].specs, UseI18n) then []
                                                                else [Named(UseI18n, UseI18n)]))
  {
    match FirstImportOf(b, I18nSource)
    case None => I18nAbsent(b);
    case Some(k) => I18nPresent(b, k);
  }

  lemma I18nAbsent(b: seq<Stmt>)
    requires b != [] && FirstImportOf(b, I18nSource).None?
    ensures var r := WithImports(b);
            var off := |Prepended(b)|;
            FirstImportOf(r, I18nSource) == Some(off - 1) && r[off - 1] == I18nImport
  {
    WithImportsUnseeded(b);
    var p := Prepended(b);
    assert p[|p| - 1] == I18nImport;
    assert forall j :: 0 <= j < |p| - 1 ==> p[j] == VueImport;
    FirstImportOfAt(p + Extended(b), I18nSource, |p| - 1);
  }

  lemma I18nPresent(b: seq<Stmt>, k: nat)
    requires b != [] && FirstImportOf(b, I18nSource) == Some(k)
    ensures var r := WithImports(b);
            var off := |Prepended(b)|;
            FirstImportOf(r, I18nSource) == Some(k + off)
            && r[k + off] == Import(I18nSource, b[k].specs + (if HasImportedMember(b[k].specs, UseI18n) then []
                                                              else [Named(UseI18n, UseI18n)]))
  {
    var s := b[k].specs;
    PresentFound(b, I18nSource, k);
    var sp := s + (if HasImportedMember(s, UseI18n) then [] else [Named(UseI18n, UseI18n)]);
    assert AppendMissing(s, [UseI18n]) == sp by {
      AppendMissingOne(s, UseI18n);
    }
    assert Extended(b)[k] == Import(I18nSource, sp) by {
      ExtendedAtI18n(b, k);
    }
    WithImportsAt(b, k);
  }

  /** The prepended declarations are all of modules the body lacks. */
  lemma PrependedAbsent(b: seq<Stmt>, source: string, k: nat)
    requires FirstImportOf(b, source) == Some(k)
    ensures forall j :: 0 <= j < |Prepended(b)| ==> !ImportOf(Prepended(b)[j], source)
  {
  }

  /** A module the body already imports is governed by the same
      declaration after the call, shifted behind the prepended ones. */
  lemma PresentFound(b: seq<Stmt>, source: string, k: nat)
    requires b != [] && FirstImportOf(b, source) == Some(k)
    ensures FirstImportOf(WithImports(b), source) == Some(k + |Prepended(b)|)
  {
    var p := Prepended(b);
    var e := Extended(b);
    assert FirstImportOf(e, source) == Some(k) by {
      ExtendedFinds(b, source);
    }
    assert FirstImportOf(p + e, source) == Some(k + |p|) by {
      PrependedAbsent(b, source, k);
      FirstImportOfShift(p, e, source);
    }
    var r := WithImports(b);
    assert r == p + e by {
      WithImportsUnseeded(b);
    }
    assert FirstImportOf(r, source) == FirstImportOf(p + e, source);
  }

  lemma WithImportsAt(b: seq<Stmt>, k: nat)
    requires k < |b|
    ensures k + |Prepended(b)| < |WithImports(b)| && WithImports(b)[k + |Prepended(b)|] == Extended(b)[k]
  {
    WithImportsUnseeded(b);
  }

  /** The 'vue' declaration after the call: a fresh `{ ref, computed }`
      declaration in front when none existed, otherwise the first existing
      one with `ref` and then `computed` appended, each only if it was
      missing, after the specifiers it already had. */
  lemma {:induction false} VueImportEnsured(b: seq<Stmt>)
    requires b != []
    ensures var r := WithImports(b);
            var off := |Prepended(b)|;
            match FirstImportOf(b, VueSource)
            case None =>
              FirstImportOf(r, VueSource) == Some(0) && r[0] == VueImport
            case Some(k) =>
              var s := b[k].specs;
              FirstImportOf(r, VueSource) == Some(k + off)
              && r[k + off] == Import(VueSource, s + (if HasImportedMember(s, RefName) then [] else [Named(RefName, RefName)])
                                                   + (if HasImportedMember(s, ComputedName) then []
                                                      else [Named(ComputedName, ComputedName)]))
  {
    match FirstImportOf(b, VueSource)
    case None => VueAbsent(b);
    case Some(k) => VuePresent(b, k);
  }

  lemma VueAbsent(b: seq<Stmt>)
    requires b != [] && FirstImportOf(b, VueSource).None?
    ensures var r := WithImports(b);
            FirstImportOf(r, VueSource) == Some(0) && r[0] == VueImport
  {
    WithImportsUnseeded(b);
    var p := Prepended(b);
    assert p[0] == VueImport;
    FirstImportOfAt(p + Extended(b), VueSource, 0);
  }

  lemma VuePresent(b: seq<Stmt>, k: nat)
    requires b != [] && FirstImportOf(b, VueSource) == Some(k)
    ensures var r := WithImports(b);
            var off := |Prepended(b)|;
            var s := b[k].specs;
            FirstImportOf(r, VueSource) == Some(k + off)
            && r[k + off] == Import(VueSource, s + (if HasImportedMember(s, RefName) then [] else [Named(RefName, RefName)])
                                                 + (if HasImportedMember(s, ComputedName) then []
                                                    else [Named(ComputedName, ComputedName)]))
  {
    var s := b[k].specs;
    PresentFound(b, VueSource, k);
    var sp := s + (if HasImportedMember(s, RefName) then [] else [Named(RefName, RefName)])
                + (if HasImportedMember(s, ComputedName) then [] else [Named(ComputedName, ComputedName)]);
    assert AppendMissing(s, [RefName, ComputedName]) == sp by {
      AppendMissingTwo(s, RefName, ComputedName);
    }
    assert Extended(b)[k] == Import(VueSource, sp) by {
      ExtendedAtVue(b, k);
    }
    WithImportsAt(b, k);
  }

  /** Extending the governing declarations does not change which
      declaration governs a module. */
  lemma ExtendedFinds(b: seq<Stmt>, source: string)
    ensures FirstImportOf(Extended(b), source) == FirstImportOf(b, source)
  {
    var i := FirstImportOf(b, I18nSource);
    var v := FirstImportOf(b, VueSource);
    var b1 := b;
    if i.Some? {
      b1 := ExtendImport(b, i.value, [UseI18n]);
      FirstImportOfExtend(b, i.value, [UseI18n], source);
      FirstImportOfExtend(b, i.value, [UseI18n], VueSource);
    }
    var b2 := b1;
    if v.Some? {
      b2 := ExtendImport(b1, v.value, [RefName, ComputedName]);
      FirstImportOfExtend(b1, v.value, [RefName, ComputedName], source);
    }
    assert Extended(b) == b2;
  }

  lemma ExtendedAtI18n(b: seq<Stmt>, k: nat)
    requires FirstImportOf(b, I18nSource) == Some(k)
    ensures Extended(b)[k] == Import(I18nSource, AppendMissing(b[k].specs, [UseI18n]))
  {
    var v := FirstImportOf(b, VueSource);
    var b1 := ExtendImport(b, k, [UseI18n]);
    if v.Some? {
      assert ImportOf(b[v.value], VueSource);
      assert v.value != k;
      assert ExtendImport(b1, v.value, [RefName, ComputedName])[k] == b1[k];
    }
  }

  lemma ExtendedAtVue(b: seq<Stmt>, k: nat)
    requires FirstImportOf(b, VueSource) == Some(k)
    ensures Extended(b)[k] == Import(VueSource, AppendMissing(b[k].specs, [RefName, ComputedName]))
  {
    var i := FirstImportOf(b, I18nSource);
    var b1 := b;
    if i.Some? {
      assert ImportOf(b[i.value], I18nSource);
      b1 := ExtendImport(b, i.value, [UseI18n]);
      assert b1[k] == b[k];
    }
    assert Extended(b) == ExtendImport(b1, k, [RefName, ComputedName]);
  }

  /** Extending the declaration at `k` changes no other statement and only
      grows that declaration's specifier list. */
  lemma ExtendImportAgrees(b: seq<Stmt>, k: nat, ms: seq<string>)
    requires k < |b| && b[k].Import?
    ensures var e := ExtendImport(b, k, ms);
            |e| == |b| && e[k].Import? && e[k].source == b[k].source && b[k].specs <= e[k].specs
            && forall j :: 0 <= j < |b| && j != k ==> e[j] == b[j]
  {
    AppendMissingPrefix(b[k].specs, ms);
  }

  lemma {:induction false} AppendMissingPrefix(specs: seq<Specifier>, ms: seq<string>)
    ensures specs <= AppendMissing(specs, ms)
    decreases |ms|
  {
    if ms != [] {
      var s1 := if HasImportedMember(specs, ms[0]) then specs else specs + [Named(ms[0], ms[0])];
      AppendMissingPrefix(s1, ms[1..]);
    }
  }

  /** Extending the two governing declarations changes no other statement,
      and every declaration keeps its module and only gains specifiers. */
  lemma ExtendedLayout(b: seq<Stmt>)
    ensures var e := Extended(b);
            (forall j :: 0 <= j < |b| && Some(j) != FirstImportOf(b, I18nSource) && Some(j) != FirstImportOf(b, VueSource)
               ==> e[j] == b[j])
            && (forall j :: 0 <= j < |b| && b[j].Import? ==>
                  e[j].Import? && e[j].source == b[j].source && b[j].specs <= e[j].specs)
  {
    var i := FirstImportOf(b, I18nSource);
    var v := FirstImportOf(b, VueSource);
    var b1 := b;
    if i.Some? {
      b1 := ExtendImport(b, i.value, [UseI18n]);
      ExtendImportAgrees(b, i.value, [UseI18n]);
    }
    assert GrowsOnly(b, b1, i);
    var b2 := b1;
    if v.Some? {
      b2 := ExtendImport(b1, v.value, [RefName, ComputedName]);
      ExtendImportAgrees(b1, v.value, [RefName, ComputedName]);
    }
    assert GrowsOnly(b1, b2, v);
    assert Extended(b) == b2;
  }

  /** `e` differs from `b` at most at `k`, and keeps every declaration's
      module while only growing its specifiers. */
  predicate GrowsOnly(b: seq<Stmt>, e: seq<Stmt>, k: Option<nat>)
  {
    |e| == |b|
    && (forall j :: 0 <= j < |b| && Some(j) != k ==> e[j] == b[j])
    && (forall j :: 0 <= j < |b| && b[j].Import? ==>
          e[j].Import? && e[j].source == b[j].source && b[j].specs <= e[j].specs)
  }

  /** Every statement of the original body survives, in its order, behind
      the prepended declarations; the only ones that change are the two
      governing declarations, which keep their module and whose specifier
      lists only grow. */
  lemma {:induction false} WithImportsLayout(b: seq<Stmt>)
    requires b != []
    ensures var r := WithImports(b);
            var p := Prepended(b);
            var off := |p|;
            |r| == |b| + off && r[..off] == p
            && (forall j :: 0 <= j < |b| && Some(j) != FirstImportOf(b, I18nSource) && Some(j) != FirstImportOf(b, VueSource)
                  ==> r[off + j] == b[j])
            && (forall j :: 0 <= j < |b| && b[j].Import? ==>
                  r[off + j].Import? && r[off + j].source == b[j].source && b[j].specs <= r[off + j].specs)
  {
    var e := Extended(b);
    var p := Prepended(b);
    var r := WithImports(b);
    assert r == p + e by {
      WithImportsUnseeded(b);
    }
    assert r[..|p|] == p;
    ExtendedLayout(b);
    forall j | 0 <= j < |b| && Some(j) != FirstImportOf(b, I18nSource) && Some(j) != FirstImportOf(b, VueSource)
      ensures r[|p| + j] == b[j]
    {
      assert r[|p| + j] == e[j];
    }
    forall j | 0 <= j < |b| && b[j].Import?
      ensures r[|p| + j].Import? && r[|p| + j].source == b[j].source && b[j].specs <= r[|p| + j].specs
    {
      assert r[|p| + j] == e[j];
    }
  }

  lemma BothAbsentPrepended(b: seq<Stmt>)
    requires b != []
    requires FirstImportOf(b, VueSource).None? && FirstImportOf(b, I18nSource).None?
    ensures WithImports(b) == [VueImport, I18nImport] + b
  {
  }

  /** The three managed members are each imported exactly once by their
      governing declaration after the call, provided they were imported at
      most once before; the call itself never adds a duplicate. */
  lemma {:induction false} MembersNotDuplicated(b: seq<Stmt>, k: nat, m: string)
    requires b != [] && k < |b| && b[k].Import?
    requires (FirstImportOf(b, I18nSource) == Some(k) && m == UseI18n)
             || (FirstImportOf(b, VueSource) == Some(k) && (m == RefName || m == ComputedName))
    ensures var r := WithImports(b);
            var c := CountImported(b[k].specs, m);
            CountImported(r[k + |Prepended(b)|].specs, m) == if c == 0 then 1 else c
  {
    I18nImportEnsured(b);
    VueImportEnsured(b);
    var r := WithImports(b);
    var off := |Prepended(b)|;
    if FirstImportOf(b, I18nSource) == Some(k) {
      AppendMissingOne(b[k].specs, UseI18n);
      AppendMissingCount(b[k].specs, [UseI18n], m);
    } else {
      AppendMissingTwo(b[k].specs, RefName, ComputedName);
      AppendMissingCount(b[k].specs, [RefName, ComputedName], m);
    }
  }

  /** Both governing declarations exist and import every managed member. */
  predicate ImportsComplete(b: seq<Stmt>)
  {
    var i := FirstImportOf(b, I18nSource);
    var v := FirstImportOf(b, VueSource);
    i.Some? && v.Some?
    && HasImportedMember(b[i.value].specs, UseI18n)
    && HasImportedMember(b[v.value].specs, RefName)
    && HasImportedMember(b[v.value].specs, ComputedName)
  }

  lemma CanonicalMembers()
    ensures HasImportedMember(I18nImport.specs, UseI18n)
    ensures HasImportedMember(VueImport.specs, RefName) && HasImportedMember(VueImport.specs, ComputedName)
  {
    assert I18nImport.specs[0] == Named(UseI18n, UseI18n);
    assert VueImport.specs[0] == Named(RefName, RefName);
    assert VueImport.specs[1] == Named(ComputedName, ComputedName);
  }

  lemma I18nMemberPresent(b: seq<Stmt>)
    requires b != []
    ensures var r := WithImports(b);
            var i := FirstImportOf(r, I18nSource);
            i.Some? && HasImportedMember(r[i.value].specs, UseI18n)
  {
    I18nImportEnsured(b);
    var r := WithImports(b);
    var off := |Prepended(b)|;
    match FirstImportOf(b, I18nSource)
    case None =>
      assert FirstImportOf(r, I18nSource) == Some(off - 1) && r[off - 1] == I18nImport;
      CanonicalMembers();
    case Some(k) =>
      var s := b[k].specs;
      assert FirstImportOf(r, I18nSource) == Some(k + off);
      assert r[k + off].specs == s + (if HasImportedMember(s, UseI18n) then [] else [Named(UseI18n, UseI18n)]);
      if HasImportedMember(s, UseI18n) {
        assert s + [] == s;
      } else {
        HasImportedMemberPush(s, Named(UseI18n, UseI18n), UseI18n);
      }
  }

  lemma VueMembersPresent(b: seq<Stmt>)
    requires b != []
    ensures var r := WithImports(b);
            var v := FirstImportOf(r, VueSource);
            v.Some? && HasImportedMember(r[v.value].specs, RefName) && HasImportedMember(r[v.value].specs, ComputedName)
  {
    VueImportEnsured(b);
    var r := WithImports(b);
    var off := |Prepended(b)|;
    match FirstImportOf(b, VueSource)
    case None =>
      assert FirstImportOf(r, VueSource) == Some(0) && r[0] == VueImport;
      CanonicalMembers();
    case Some(k) =>
      var s := b[k].specs;
      var s1 := s + (if HasImportedMember(s, RefName) then [] else [Named(RefName, RefName)]);
      var s2 := s1 + (if HasImportedMember(s, ComputedName) then [] else [Named(ComputedName, ComputedName)]);
      assert FirstImportOf(r, VueSource) == Some(k + off);
      assert r[k + off].specs == s2;
      assert s + [] == s && s1 + [] == s1;
      HasImportedMemberPush(s, Named(RefName, RefName), RefName);
      HasImportedMemberPush(s, Named(RefName, RefName), ComputedName);
      HasImportedMemberPush(s1, Named(ComputedName, ComputedName), RefName);
      HasImportedMemberPush(s1, Named(ComputedName, ComputedName), ComputedName);
  }

  /** Whatever the body, after the call both imports are complete. */
  lemma WithImportsComplete(b: seq<Stmt>)
    ensures ImportsComplete(WithImports(b))
  {
    assert WithImports(Seeded(b)) == WithImports(b);
    I18nMemberPresent(Seeded(b));
    VueMembersPresent(Seeded(b));
  }

  /** A body whose imports are complete is left exactly as it is. */
  lemma {:induction false} CompleteIsFixpoint(b: seq<Stmt>)
    requires ImportsComplete(b)
    ensures WithImports(b) == b
  {
    var ki := FirstImportOf(b, I18nSource).value;
    var kv := FirstImportOf(b, VueSource).value;
    AppendMissingComplete(b[ki].specs, [UseI18n]);
    var b1 := ExtendImport(b, ki, [UseI18n]);
    assert b1 == b;
    AppendMissingComplete(b[kv].specs, [RefName, ComputedName]);
    assert ExtendImport(b1, kv, [RefName, ComputedName]) == b;
    assert Extended(b) == b;
    assert Prepended(b) == [];
  }

  /** Running the import injection a second time changes nothing. */
  lemma WithImportsIdempotent(b: seq<Stmt>)
    ensures WithImports(WithImports(b)) == WithImports(b)
  {
    WithImportsComplete(b);
    CompleteIsFixpoint(WithImports(b));
  }
}
