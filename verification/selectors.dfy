/** The target selector value type: a description of which node of a
    generated object graph a generation rule applies to. A selector names a
    target class and/or a field, may be narrowed by scopes (outermost first)
    or by an exact depth, and carries two diagnostic-only parts, its parent
    reference and the stack trace captured where it was created. A built
    selector has no setters; `Within` and `AtDepth` derive new ones through
    a builder. */
module Selectors {
  import opened Wrappers
  import opened JavaInt
  import Decimal
  import opened ApiValidator

  /** A loaded class, known only by its identity. */
  datatype ClassId = ClassId(identity: nat)

  /** The Throwable captured where a selector was created. Only its identity
      matters here: it tells which call site created the selector. */
  datatype StackTrace = StackTrace(site: nat)

  /** A (class, optional field) pair naming an ancestor a target must lie under. */
  datatype Scope = Scope(targetClass: Option<ClassId>, fieldName: Option<string>)

  /** What a selector's parent reference points at. Only one distinction
      matters to a selector: whether the parent is a primitive-and-wrapper
      selector, which renders itself in the child's place. */
  datatype ParentRef =
    | PrimitiveAndWrapper(rendering: string)
    | OtherParent(identity: nat)

  /** The text-producing collaborators rendering relies on: what
      Class.getSimpleName reports for a class, and how Format.formatScopes
      writes a list of scopes. */
  datatype Formatter = Formatter(simpleName: ClassId -> string, formatScopes: seq<Scope> -> string)

  datatype Selector = Selector(
    targetClass: Option<ClassId>,
    fieldName: Option<string>,
    scopes: seq<Scope>,
    parent: Option<ParentRef>,
    stackTraceHolder: StackTrace,
    isRoot: bool,
    depth: Option<int32>)

  /** The mutable builder, as a value: `None` is a field never set (null).
      Each setter sets its own field and leaves every other one as it was. */
  datatype Builder = Builder(
    targetClass: Option<ClassId>,
    fieldName: Option<string>,
    scopes: Option<seq<Scope>>,
    parent: Option<ParentRef>,
    stackTraceHolder: Option<StackTrace>,
    isRoot: bool,
    depth: Option<int32>)
  {
    function TargetClass(c: Option<ClassId>): (b: Builder)
      ensures b.targetClass == c && b.(targetClass := this.targetClass) == this
    {
      this.(targetClass := c)
    }

    function FieldName(f: Option<string>): (b: Builder)
      ensures b.fieldName == f && b.(fieldName := this.fieldName) == this
    {
      this.(fieldName := f)
    }

    function Scopes(s: Option<seq<Scope>>): (b: Builder)
      ensures b.scopes == s && b.(scopes := this.scopes) == this
    {
      this.(scopes := s)
    }

    function Parent(p: Option<ParentRef>): (b: Builder)
      ensures b.parent == p && b.(parent := this.parent) == this
    {
      this.(parent := p)
    }

    function StackTraceHolder(h: Option<StackTrace>): (b: Builder)
      ensures b.stackTraceHolder == h && b.(stackTraceHolder := this.stackTraceHolder) == this
    {
      this.(stackTraceHolder := h)
    }

    function Root(r: bool): (b: Builder)
      ensures b.isRoot == r && b.(isRoot := this.isRoot) == this
    {
      this.(isRoot := r)
    }

    function Depth(d: Option<int32>): (b: Builder)
      ensures b.depth == d && b.(depth := this.depth) == this
    {
      this.(depth := d)
    }
  }

  /** `builder()`: a builder with nothing set; in particular not root. */
  function EmptyBuilder(): (b: Builder)
    ensures !b.isRoot
    ensures b.targetClass.None? && b.fieldName.None? && b.scopes.None?
    ensures b.parent.None? && b.stackTraceHolder.None? && b.depth.None?
  {
    Builder(None, None, None, None, None, false, None)
  }

  /** `build()`: unset scopes become the empty list, and an unset stack
      trace is replaced by `freshHolder`, the Throwable created at this
      point; every other field is taken as the builder holds it. */
  function Build(b: Builder, freshHolder: StackTrace): (s: Selector)
    ensures s.targetClass == b.targetClass && s.fieldName == b.fieldName
    ensures s.parent == b.parent && s.depth == b.depth && s.isRoot == b.isRoot
    ensures b.scopes.Some? ==> s.scopes == b.scopes.value
    ensures b.scopes.None? ==> s.scopes == []
    ensures b.stackTraceHolder.Some? ==> s.stackTraceHolder == b.stackTraceHolder.value
    ensures b.stackTraceHolder.None? ==> s.stackTraceHolder == freshHolder
  {
    Selector(
      b.targetClass,
      b.fieldName,
      if b.scopes.Some? then b.scopes.value else [],
      b.parent,
      if b.stackTraceHolder.Some? then b.stackTraceHolder.value else freshHolder,
      b.isRoot,
      b.depth)
  }

  /** `builder(copy)`: a builder preloaded with every field of `copy`
      except `isRoot`, which keeps the builder's default, false. */
  function CopyBuilder(copy: Selector): (b: Builder)
    ensures b.targetClass == copy.targetClass && b.fieldName == copy.fieldName
    ensures b.parent == copy.parent && b.depth == copy.depth
    ensures b.scopes == Some(copy.scopes)
    ensures b.stackTraceHolder == Some(copy.stackTraceHolder)
    ensures !b.isRoot
  {
    EmptyBuilder()
      .TargetClass(copy.targetClass)
      .FieldName(copy.fieldName)
      .Scopes(Some(copy.scopes))
      .Parent(copy.parent)
      .StackTraceHolder(Some(copy.stackTraceHolder))
      .Depth(copy.depth)
  }

  /** The (class, field, isRoot) constructor: the given class, field and
      rootness, no scopes, no parent, no depth, and a stack trace captured
      at the call (`freshHolder`). */
  function New(targetClass: Option<ClassId>, fieldName: Option<string>, isRoot: bool,
               freshHolder: StackTrace): (s: Selector)
    ensures s.targetClass == targetClass && s.fieldName == fieldName
    ensures s.scopes == [] && s.depth.None? && s.parent.None?
    ensures s.stackTraceHolder == freshHolder
    ensures s.isRoot == isRoot
  {
    Selector(targetClass, fieldName, [], None, freshHolder, isRoot, None)
  }

  /** `getRootSelector()`: the selector denoting the root object itself. */
  function GetRootSelector(freshHolder: StackTrace): (s: Selector)
    ensures s.isRoot
    ensures s.targetClass.None? && s.fieldName.None?
    ensures s.scopes == [] && s.depth.None?
  {
    New(None, None, true, freshHolder)
  }

  /** `atDepth(n)`: a copy of `s` restricted to depth n. A negative depth is
      API misuse. Being built from `builder(copy)`, the copy is never root. */
  function AtDepth(s: Selector, n: int32): (r: Result<Selector, ApiError>)
    ensures r.Success? <==> n >= 0
    ensures r.Failure? ==> r.error == InvalidDepth(n)
    ensures r.Success? ==> r.value == s.(depth := Some(n), isRoot := false)
  {
    match ValidateDepth(n)
    case Failure(e) => Failure(e)
    // the copied builder always holds a stack trace, so the fallback
    // argument of Build is never consulted
    case Success(d) => Success(Build(CopyBuilder(s).Depth(Some(d)), s.stackTraceHolder))
  }

  /** `within(scopes...)`: a copy of `s` whose scopes are exactly `scopes`,
      replacing (not extending) the old ones; again never root. */
  function Within(s: Selector, scopes: seq<Scope>): (r: Selector)
    ensures r == s.(scopes := scopes, isRoot := false)
  {
    Build(CopyBuilder(s).Scopes(Some(scopes)), s.stackTraceHolder)
  }

  /** `toScope()`: the selector's class and field as a scope. */
  function ToScope(s: Selector): (r: Scope)
    ensures r.targetClass == s.targetClass && r.fieldName == s.fieldName
  {
    Scope(s.targetClass, s.fieldName)
  }

  /** `flatten()`: a primitive selector flattens to itself alone. */
  function Flatten(s: Selector): (r: seq<Selector>)
    ensures |r| == 1 && r[0] == s
  {
    [s]
  }

  /** A field selector is one that names a field; only then is the
      selector rendered as `field(...)` rather than `all(...)`. */
  predicate IsFieldSelector(s: Selector)
    ensures IsFieldSelector(s) <==> ToScope(s).fieldName.Some?
  {
    s.fieldName.Some?
  }

  /** A selector with its diagnostic-only parts reset to fixed values. */
  function Erase(s: Selector): Selector {
    s.(parent := None, stackTraceHolder := StackTrace(0))
  }

  /** `equals`: compares class, field, scopes, depth and rootness, and
      deliberately neither the parent nor the stack trace. So two selectors
      are equal exactly when they coincide once those two are disregarded,
      and equal selectors hash alike. */
  predicate Equals(a: Selector, b: Selector)
    ensures Equals(a, b) <==> Erase(a) == Erase(b)
    ensures Equals(a, b) ==> HashCode(a) == HashCode(b)
  {
    && a.targetClass == b.targetClass
    && a.fieldName == b.fieldName
    && a.scopes == b.scopes
    && a.depth == b.depth
    && a.isRoot == b.isRoot
  }

  /** Class.hashCode is an identity hash: any fixed function of the class's
      identity will do, and this model takes the identity wrapped to 32 bits. */
  function ClassHash(c: Option<ClassId>): int {
    match c
    case None => 0
    case Some(k) => Wrap(k.identity)
  }

  function NullableStringHash(s: Option<string>): int {
    match s
    case None => 0
    case Some(t) => StringHash(t)
  }

  function ScopeHash(sc: Scope): int {
    ObjectsHash([ClassHash(sc.targetClass), NullableStringHash(sc.fieldName)])
  }

  /** List.hashCode over the scopes. */
  function ScopesHash(scopes: seq<Scope>): int {
    HashFold(1, seq(|scopes|, i requires 0 <= i < |scopes| => ScopeHash(scopes[i])))
  }

  /** `hashCode`: Objects.hash of the five fields `equals` compares. */
  function HashCode(s: Selector): (h: int)
    ensures IsInt32(h)
  {
    ObjectsHash([
      ClassHash(s.targetClass),
      NullableStringHash(s.fieldName),
      ScopesHash(s.scopes),
      match s.depth case None => 0 case Some(d) => d as int,
      BoolHash(s.isRoot)])
  }

  predicate StartsWith(s: string, prefix: string) {
    |prefix| <= |s| && s[..|prefix|] == prefix
  }

  predicate WrappedByPrimitive(s: Selector) {
    s.parent.Some? && s.parent.value.PrimitiveAndWrapper?
  }

  /** A prefix of a string stays a prefix once more text is appended. */
  lemma PrefixSurvivesAppend(s: string, more: string, prefix: string)
    requires StartsWith(s, prefix)
    ensures StartsWith(s + more, prefix)
  {
    assert (s + more)[..|prefix|] == s[..|prefix|];
  }

  /** The selector's name part, in one of four forms: `field(C, "f")`,
      `field("f")`, `all(C)` or `all()`, where C is the class's simple name. */
  function Head(s: Selector, fmt: Formatter): (r: string)
    ensures IsFieldSelector(s) ==> StartsWith(r, "field(")
    ensures !IsFieldSelector(s) ==> StartsWith(r, "all(")
    ensures s.targetClass.Some? && s.fieldName.Some? ==>
              r == "field(" + fmt.simpleName(s.targetClass.value) + ", \"" + s.fieldName.value + "\")"
    ensures s.targetClass.None? && s.fieldName.Some? ==>
              r == "field(\"" + s.fieldName.value + "\")"
    ensures s.targetClass.Some? && s.fieldName.None? ==>
              r == "all(" + fmt.simpleName(s.targetClass.value) + ")"
    ensures s.targetClass.None? && s.fieldName.None? ==> r == "all()"
  {
    var opening := if IsFieldSelector(s) then "field(" else "all(";
    var rest :=
      (match s.targetClass case Some(c) => fmt.simpleName(c) case None => "")
      + (match s.fieldName
         case Some(f) => (if s.targetClass.Some? then ", " else "") + "\"" + f + "\""
         case None => "")
      + ")";
    PrefixSurvivesAppend(opening, rest, opening);
    opening + rest
  }

  /** The text `.atDepth(n)` appended for a depth-restricted selector. */
  function DepthText(d: int32): string {
    ".atDepth(" + Decimal.IntToString(d as int) + ")"
  }

  /** `toString()`: `root()` for a root selector; the parent's own text for a
      selector wrapped by a primitive-and-wrapper selector; otherwise the head
      followed by the depth if one is set, else by the formatted scopes if
      there are any, never by both. */
  function ToString(s: Selector, fmt: Formatter): (r: string)
    ensures s.isRoot ==> r == "root()"
    ensures !s.isRoot && WrappedByPrimitive(s) ==> r == s.parent.value.rendering
    ensures !s.isRoot && !WrappedByPrimitive(s) ==>
              && StartsWith(r, Head(s, fmt))
              && (StartsWith(r, "field(") <==> IsFieldSelector(s))
              && (StartsWith(r, "all(") <==> !IsFieldSelector(s))
    ensures !s.isRoot && !WrappedByPrimitive(s) && s.depth.Some? ==>
              r == Head(s, fmt) + DepthText(s.depth.value)
    ensures !s.isRoot && !WrappedByPrimitive(s) && s.depth.None? && s.scopes != [] ==>
              r == Head(s, fmt) + ", " + fmt.formatScopes(s.scopes)
    ensures !s.isRoot && !WrappedByPrimitive(s) && s.depth.None? && s.scopes == [] ==>
              r == Head(s, fmt)
  {
    if s.isRoot then "root()"
    else if WrappedByPrimitive(s) then s.parent.value.rendering
    else
      var head := Head(s, fmt);
      var tail :=
        if s.depth.Some? then DepthText(s.depth.value)
        else if s.scopes != [] then ", " + fmt.formatScopes(s.scopes)
        else "";
      var opening := if IsFieldSelector(s) then "field(" else "all(";
      PrefixSurvivesAppend(head, tail, opening);
      assert (head + tail)[..|head|] == head;
      // "field(" and "all(" already differ in their first character
      assert (head + tail)[0] == opening[0];
      head + tail
  }
}
