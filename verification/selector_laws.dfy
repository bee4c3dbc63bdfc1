/** Properties of target selectors: what equality and hashing see, how the
    copy-builder round-trips, what `Within` and `AtDepth` keep and change,
    and what the canonical rendering reveals. */
module SelectorLaws {
  import opened Wrappers
  import opened JavaInt
  import Decimal
  import opened ApiValidator
  import opened Selectors

  // ----- equality and hash -----

  /** Equality is an equivalence, as Object.equals must be. */
  lemma EqualsIsEquivalence(a: Selector, b: Selector, c: Selector)
    ensures Equals(a, a)
    ensures Equals(a, b) ==> Equals(b, a)
    ensures Equals(a, b) && Equals(b, c) ==> Equals(a, c)
  {
  }

  /** Replacing the parent or the stack trace never breaks equality, and
      never changes the hash. */
  lemma DiagnosticsAreInvisible(s: Selector, parent: Option<ParentRef>, holder: StackTrace)
    ensures Equals(s, s.(parent := parent, stackTraceHolder := holder))
    ensures HashCode(s) == HashCode(s.(parent := parent, stackTraceHolder := holder))
  {
  }

  /** Two selectors created for the same class, field and rootness at
      different call sites are equal, though their stack traces differ. */
  lemma IndependentlyCreatedSelectorsAreEqual(
    c: Option<ClassId>, f: Option<string>, isRoot: bool, h1: StackTrace, h2: StackTrace)
    ensures Equals(New(c, f, isRoot, h1), New(c, f, isRoot, h2))
    ensures HashCode(New(c, f, isRoot, h1)) == HashCode(New(c, f, isRoot, h2))
  {
  }

  // ----- builder -----

  /** Copying a selector into a builder and building gives the selector back,
      except that it is no longer root; no fresh stack trace is involved. */
  lemma CopyThenBuild(s: Selector, freshHolder: StackTrace)
    ensures Build(CopyBuilder(s), freshHolder) == s.(isRoot := false)
    ensures Equals(Build(CopyBuilder(s), freshHolder), s) <==> !s.isRoot
  {
  }

  /** Building and copying back recovers a non-root builder that had its
      scopes and stack trace set. */
  lemma BuildThenCopy(b: Builder, freshHolder: StackTrace)
    requires b.scopes.Some? && b.stackTraceHolder.Some? && !b.isRoot
    ensures CopyBuilder(Build(b, freshHolder)) == b
  {
  }

  /** `build()` creates a new stack trace only when the builder holds none. */
  lemma FreshHolderOnlyWhenUnset(b: Builder, h1: StackTrace, h2: StackTrace)
    ensures b.stackTraceHolder.Some? ==> Build(b, h1) == Build(b, h2)
    ensures b.stackTraceHolder.None? ==> Build(b, h1).stackTraceHolder == h1
  {
  }

  // ----- derivation -----

  /** A second `within` replaces the scopes of the first; it does not append. */
  lemma WithinReplacesScopes(s: Selector, first: seq<Scope>, second: seq<Scope>)
    ensures Within(Within(s, first), second) == Within(s, second)
    ensures Within(Within(s, first), second).scopes == second
  {
  }

  /** `within` keeps class, field, depth, parent and the original stack trace. */
  lemma WithinKeepsTheRest(s: Selector, scopes: seq<Scope>)
    ensures var r := Within(s, scopes);
      && r.targetClass == s.targetClass && r.fieldName == s.fieldName
      && r.depth == s.depth && r.parent == s.parent
      && r.stackTraceHolder == s.stackTraceHolder
  {
  }

  /** A valid `atDepth` keeps class, field, scopes, parent and the original
      stack trace; the last depth set wins. */
  lemma AtDepthKeepsTheRest(s: Selector, n: int32, m: int32)
    requires n >= 0 && m >= 0
    ensures var r := AtDepth(s, n).value;
      && r.depth == Some(n)
      && r.targetClass == s.targetClass && r.fieldName == s.fieldName
      && r.scopes == s.scopes && r.parent == s.parent
      && r.stackTraceHolder == s.stackTraceHolder
    ensures AtDepth(AtDepth(s, n).value, m) == AtDepth(s, m)
  {
  }

  /** Narrowing by scopes and by depth commute. */
  lemma WithinAndAtDepthCommute(s: Selector, scopes: seq<Scope>, n: int32)
    requires n >= 0
    ensures Within(AtDepth(s, n).value, scopes) == AtDepth(Within(s, scopes), n).value
  {
  }

  /** Deriving from equal selectors gives equal selectors. */
  lemma DerivationRespectsEquality(a: Selector, b: Selector, scopes: seq<Scope>, n: int32)
    requires Equals(a, b)
    ensures Equals(Within(a, scopes), Within(b, scopes))
    ensures AtDepth(a, n).Success? ==> Equals(AtDepth(a, n).value, AtDepth(b, n).value)
  {
  }

  /** Every derived selector is non-root, even one derived from the root
      selector: such a selector has neither class nor field, is not equal to
      the root selector, and renders as `all()` followed by its depth or its
      scopes. */
  lemma DerivedFromRootIsNotRoot(freshHolder: StackTrace, scopes: seq<Scope>, n: int32, fmt: Formatter)
    ensures var root := GetRootSelector(freshHolder);
      && !Within(root, scopes).isRoot
      && !Equals(Within(root, scopes), root)
      && ToString(Within(root, []), fmt) == "all()"
      && (scopes != [] ==> ToString(Within(root, scopes), fmt) == "all(), " + fmt.formatScopes(scopes))
      && (n >= 0 ==> !AtDepth(root, n).value.isRoot)
      && (n >= 0 ==> ToString(AtDepth(root, n).value, fmt)
                     == "all().atDepth(" + Decimal.IntToString(n as int) + ")")
  {
    var root := GetRootSelector(freshHolder);
    assert Within(root, scopes) == root.(scopes := scopes, isRoot := false);
    RootWithoutScopesRenders(root, fmt);
    if scopes != [] {
      RootWithinRenders(root, scopes, fmt);
    }
    if n >= 0 {
      RootAtDepthRenders(root, n, fmt);
    }
  }

  lemma RootWithoutScopesRenders(root: Selector, fmt: Formatter)
    requires root.targetClass.None? && root.fieldName.None? && root.depth.None? && root.parent.None?
    ensures ToString(Within(root, []), fmt) == "all()"
  {
    var w := Within(root, []);
    assert Head(w, fmt) == "all()";
  }

  lemma RootWithinRenders(root: Selector, scopes: seq<Scope>, fmt: Formatter)
    requires root.targetClass.None? && root.fieldName.None? && root.depth.None? && root.parent.None?
    requires scopes != []
    ensures ToString(Within(root, scopes), fmt) == "all(), " + fmt.formatScopes(scopes)
  {
    var w := Within(root, scopes);
    assert Head(w, fmt) == "all()";
    assert ToString(w, fmt) == "all()" + ", " + fmt.formatScopes(scopes);
  }

  lemma RootAtDepthRenders(root: Selector, n: int32, fmt: Formatter)
    requires root.targetClass.None? && root.fieldName.None? && root.parent.None?
    requires n >= 0
    ensures ToString(AtDepth(root, n).value, fmt) == "all().atDepth(" + Decimal.IntToString(n as int) + ")"
  {
    var a := AtDepth(root, n).value;
    assert Head(a, fmt) == "all()";
    assert ToString(a, fmt) == "all()" + DepthText(n);
  }

  /** The builder's root setter is how a root selector would be built by
      hand: the result equals the root selector. */
  lemma RootViaBuilder(h1: StackTrace, h2: StackTrace)
    ensures Equals(Build(EmptyBuilder().Root(true), h1), GetRootSelector(h2))
    ensures !Equals(Build(EmptyBuilder(), h1), GetRootSelector(h2))
  {
  }

  /** Each builder setter changes its own field of the built selector and
      nothing else that equality compares. */
  lemma SettersReachTheBuiltSelector(
    b: Builder, h: StackTrace, c: Option<ClassId>, f: Option<string>, sc: seq<Scope>,
    d: Option<int32>, p: Option<ParentRef>, r: bool, t: StackTrace)
    ensures Build(b.TargetClass(c), h) == Build(b, h).(targetClass := c)
    ensures Build(b.FieldName(f), h) == Build(b, h).(fieldName := f)
    ensures Build(b.Scopes(Some(sc)), h) == Build(b, h).(scopes := sc)
    ensures Build(b.Scopes(None), h) == Build(b, h).(scopes := [])
    ensures Build(b.Depth(d), h) == Build(b, h).(depth := d)
    ensures Build(b.Parent(p), h) == Build(b, h).(parent := p)
    ensures Build(b.Root(r), h) == Build(b, h).(isRoot := r)
    ensures Build(b.StackTraceHolder(Some(t)), h) == Build(b, h).(stackTraceHolder := t)
    ensures Build(b.StackTraceHolder(None), h) == Build(b, h).(stackTraceHolder := h)
  {
  }

  /** Whether a selector is a field selector survives derivation. */
  lemma FieldSelectorSurvivesDerivation(s: Selector, scopes: seq<Scope>, n: int32)
    ensures IsFieldSelector(Within(s, scopes)) == IsFieldSelector(s)
    ensures n >= 0 ==> IsFieldSelector(AtDepth(s, n).value) == IsFieldSelector(s)
  {
  }

  // ----- rendering, scope and flattening -----

  /** The root selector renders as `root()`, whatever formats the scopes. */
  lemma RootRendersAsRoot(freshHolder: StackTrace, fmt: Formatter)
    ensures ToString(GetRootSelector(freshHolder), fmt) == "root()"
  {
  }

  /** Once a depth is set, the scopes play no part in the rendering: neither
      their value nor how they would be formatted shows. */
  lemma DepthHidesScopes(s: Selector, scopes: seq<Scope>, fmt: Formatter, g: seq<Scope> -> string)
    requires s.depth.Some?
    ensures ToString(s, fmt) == ToString(s.(scopes := scopes), fmt.(formatScopes := g))
  {
  }

  /** Equal selectors that are not wrapped by a primitive-and-wrapper parent
      render alike: the text depends only on what equality compares. */
  lemma EqualSelectorsRenderAlike(a: Selector, b: Selector, fmt: Formatter)
    requires Equals(a, b) && !WrappedByPrimitive(a) && !WrappedByPrimitive(b)
    ensures ToString(a, fmt) == ToString(b, fmt)
  {
  }

  /** The canonical text of a class-and-field selector with no narrowing. */
  lemma FieldSelectorText(c: ClassId, name: string, freshHolder: StackTrace, fmt: Formatter)
    ensures ToString(New(Some(c), Some(name), false, freshHolder), fmt)
            == "field(" + fmt.simpleName(c) + ", \"" + name + "\")"
  {
  }

  /** The depth of a depth-restricted selector can be read back from its
      text: it is the integer between `.atDepth(` and the final `)`. */
  lemma {:induction false} RenderedDepthReadsBack(s: Selector, fmt: Formatter)
    requires !s.isRoot && !WrappedByPrimitive(s) && s.depth.Some?
    ensures var r := ToString(s, fmt);
      var digits := Decimal.IntToString(s.depth.value as int);
      && |digits| + 1 <= |r|
      && Decimal.ParseInt(r[|r| - 1 - |digits|..|r| - 1]) == Some(s.depth.value as int)
  {
    var r := ToString(s, fmt);
    var digits := Decimal.IntToString(s.depth.value as int);
    var suffix := DepthText(s.depth.value);
    assert r == Head(s, fmt) + suffix;
    assert r[|r| - 1 - |digits|..|r| - 1] == suffix[|".atDepth("|..|suffix| - 1];
    assert suffix[|".atDepth("|..|suffix| - 1] == digits;
    Decimal.IntRoundTrip(s.depth.value as int);
  }

  /** Different depths give different `.atDepth(n)` texts. */
  lemma {:induction false} DepthTextInjective(d1: int32, d2: int32)
    requires DepthText(d1) == DepthText(d2)
    ensures d1 == d2
  {
    var t1 := DepthText(d1);
    var n := |t1|;
    assert t1[9..n - 1] == Decimal.IntToString(d1 as int);
    assert DepthText(d2)[9..n - 1] == Decimal.IntToString(d2 as int);
    Decimal.IntRoundTrip(d1 as int);
    Decimal.IntRoundTrip(d2 as int);
  }

  /** Two selectors that differ only in their depth render differently, so
      the text tells depth-restricted selectors apart. */
  lemma {:induction false} DistinctDepthsRenderDifferently(s: Selector, d1: int32, d2: int32, fmt: Formatter)
    requires !s.isRoot && !WrappedByPrimitive(s) && d1 != d2
    ensures ToString(s.(depth := Some(d1)), fmt) != ToString(s.(depth := Some(d2)), fmt)
  {
    var s1 := s.(depth := Some(d1));
    var s2 := s.(depth := Some(d2));
    var head := Head(s, fmt);
    assert Head(s1, fmt) == head && Head(s2, fmt) == head;
    if ToString(s1, fmt) == ToString(s2, fmt) {
      assert head + DepthText(d1) == head + DepthText(d2);
      assert (head + DepthText(d1))[|head|..] == DepthText(d1);
      assert (head + DepthText(d2))[|head|..] == DepthText(d2);
      DepthTextInjective(d1, d2);
    }
  }

  /** `toScope` reads only class and field: narrowing leaves it unchanged and
      equal selectors give the same scope. */
  lemma ToScopeIgnoresNarrowing(s: Selector, t: Selector, scopes: seq<Scope>, n: int32)
    ensures ToScope(Within(s, scopes)) == ToScope(s)
    ensures n >= 0 ==> ToScope(AtDepth(s, n).value) == ToScope(s)
    ensures Equals(s, t) ==> ToScope(s) == ToScope(t)
  {
  }
}
