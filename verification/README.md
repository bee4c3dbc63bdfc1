# Instancio configuration core in Dafny

A model of two small, pure pieces of instancio's configuration layer, with
proofs of the properties they promise.

**Target selectors** (`SelectorImpl`). A selector describes which node of a
generated object graph a generation rule applies to. It names a target class
and/or a field name. It may be narrowed by scopes (ancestors, outermost
first) or by an exact depth. It can be the root selector. It also carries two
diagnostic-only parts: a parent reference and the stack trace captured where
it was created. A built selector has no setters, and `within` and `atDepth`
derive new selectors through a copy-builder. The scope list is not copied,
though (see "## Left out"). Equality and hashing look at class, field,
scopes, depth and rootness only. A selector renders as `root()`,
`field(...)` or `all(...)`.

**Comparable number generator spec**
(`AbstractRandomComparableNumberGeneratorSpec`). This spec holds a
`(min, max)` pair. `min(x)` and `max(x)` set one bound and push the
other bound out of the way when the two collide, so they never fail.
`range(lo, hi)` assigns both bounds and then rejects `lo > hi` as API misuse.

Modules:

- `Wrappers`: `Option` (a nullable reference) and `Result` (a call that may throw).
- `JavaInt`: Java's 32-bit `int` and its wrap-around. Also the `31 * h + x`
  hash loop behind `String.hashCode`, `List.hashCode` and `Objects.hash`.
- `Decimal`: `Integer.toString`, used to render a depth, and its inverse.
- `ApiValidator`: the API-misuse checks (`validateDepth`, `isTrue`).
- `Selectors`: the selector, scope and builder values and their operations.
- `SelectorLaws`: lemmas about equality, hashing, derivation and rendering.
- `NumberUtils`: the bound-padding helpers, specified by their documented contract.
- `ComparableNumberSpec`: the spec record, its three mutations and the ordering invariant.

Things outside the model are parameters:

- `Class<?>` is a `ClassId` token that carries only the class's identity.
- The `Throwable` that `new Throwable()` would create is a `freshHolder` argument.
- `Class.getSimpleName` and `Format.formatScopes` are the two function fields of
  a `Formatter` argument of `ToString`.
- A primitive-and-wrapper parent is represented by its own rendered text.

## Behaviour kept as written

- `builder(copy)` copies every field except `isRoot`, and the builder
  defaults `isRoot` to false. So `within` or `atDepth` on the root selector
  yields a non-root selector with no class and no field. It is not equal to
  the root selector. It renders as `all()`, followed by `.atDepth(n)` or by
  the formatted scopes when those are set
  (`SelectorLaws.DerivedFromRootIsNotRoot`).
- `range(lo, hi)` assigns both bounds before it validates them. A rejected
  call does not restore the previous bounds: it leaves `(lo, hi)` in the
  spec, with `min > max`
  (`ComparableNumberSpec.RejectedRangeLeavesBoundsInverted`).
- `toScope` passes the selector's class as it is, which may be null. So a
  scope's class may be absent.
- Nothing forces a non-root selector to have a class or a field, and nothing
  stops a selector from having both a depth and scopes. When both are set,
  only the depth is rendered (`SelectorLaws.DepthHidesScopes`).

## Model

| member | source | states |
|---|---|---|
| Selectors.New | instancio-core/src/main/java/org/instancio/internal/selectors/SelectorImpl.java:53-74 | a fresh selector has no scopes, no depth and no parent, and holds the stack trace captured at its creation |
| Selectors.Build | instancio-core/src/main/java/org/instancio/internal/selectors/SelectorImpl.java:76-86 | a new stack trace is used only when the builder holds none; unset scopes become the empty list; rootness is taken from the builder |
| Selectors.CopyBuilder | instancio-core/src/main/java/org/instancio/internal/selectors/SelectorImpl.java:88-97 | the copy-builder carries the copied selector's scopes and original stack trace, and is not root |
| Selectors.EmptyBuilder | instancio-core/src/main/java/org/instancio/internal/selectors/SelectorImpl.java:223-237 | a new builder has every field unset and is not root |
| Selectors.GetRootSelector | instancio-core/src/main/java/org/instancio/internal/selectors/SelectorImpl.java:101-103 | the root selector is root, and has no class, no field, no scopes and no depth |
| Selectors.AtDepth | instancio-core/src/main/java/org/instancio/internal/selectors/SelectorImpl.java:113-118 | a negative depth raises the depth error; otherwise the result is the receiver with that depth, no longer root |
| Selectors.Within | instancio-core/src/main/java/org/instancio/internal/selectors/SelectorImpl.java:125-128 | the result is the receiver with its scopes replaced by exactly the given ones, no longer root |
| Selectors.Equals | instancio-core/src/main/java/org/instancio/internal/selectors/SelectorImpl.java:169-179 | equality holds exactly when the selectors coincide once parent and stack trace are reset, and equal selectors hash alike |
| Selectors.ToScope | instancio-core/src/main/java/org/instancio/internal/selectors/SelectorImpl.java:130-133 | the scope holds the selector's class and field |
| Selectors.Flatten | instancio-core/src/main/java/org/instancio/internal/selectors/SelectorImpl.java:135-138 | the result is the one-element list holding the selector itself |
| Selectors.IsFieldSelector | instancio-core/src/main/java/org/instancio/internal/selectors/SelectorImpl.java:148-150 | a selector is a field selector exactly when it names a field, which is also when its scope names one |
| Selectors.Builder.TargetClass | instancio-core/src/main/java/org/instancio/internal/selectors/SelectorImpl.java:239-242 | the setter sets the target class and leaves every other builder field as it was |
| Selectors.Builder.FieldName | instancio-core/src/main/java/org/instancio/internal/selectors/SelectorImpl.java:244-247 | the setter sets the field name and leaves every other builder field as it was |
| Selectors.Builder.Scopes | instancio-core/src/main/java/org/instancio/internal/selectors/SelectorImpl.java:249-252 | the setter sets the scopes and leaves every other builder field as it was |
| Selectors.Builder.Parent | instancio-core/src/main/java/org/instancio/internal/selectors/SelectorImpl.java:254-257 | the setter sets the parent and leaves every other builder field as it was |
| Selectors.Builder.StackTraceHolder | instancio-core/src/main/java/org/instancio/internal/selectors/SelectorImpl.java:259-262 | the setter sets the stack trace and leaves every other builder field as it was |
| Selectors.Builder.Root | instancio-core/src/main/java/org/instancio/internal/selectors/SelectorImpl.java:264-267 | the setter sets rootness and leaves every other builder field as it was |
| Selectors.Builder.Depth | instancio-core/src/main/java/org/instancio/internal/selectors/SelectorImpl.java:269-272 | the setter sets the depth and leaves every other builder field as it was |
| SelectorLaws.SettersReachTheBuiltSelector | instancio-core/src/main/java/org/instancio/internal/selectors/SelectorImpl.java:239-276 | each of the seven builder setters changes exactly its own field of the built selector; clearing the scopes gives the empty list and clearing the stack trace makes build use a fresh one |
| SelectorLaws.RootViaBuilder | instancio-core/src/main/java/org/instancio/internal/selectors/SelectorImpl.java:264-276 | a builder with only root(true) set builds a selector equal to the root selector; without it, the result is not equal to root |
| SelectorLaws.FieldSelectorSurvivesDerivation | instancio-core/src/main/java/org/instancio/internal/selectors/SelectorImpl.java:148-150 | within and atDepth keep whether a selector is a field selector |
| Selectors.HashCode | instancio-core/src/main/java/org/instancio/internal/selectors/SelectorImpl.java:186-189 | the hash is a 32-bit Java int |
| Selectors.ToString | instancio-core/src/main/java/org/instancio/internal/selectors/SelectorImpl.java:191-221 | root renders as root(); a selector wrapped by a primitive-and-wrapper selector renders as its parent; otherwise the text starts with field( exactly for field selectors and all( otherwise, and ends with .atDepth(n) if a depth is set, else with the formatted scopes if there are any, else with the bare head |
| SelectorLaws.EqualsIsEquivalence | instancio-core/src/main/java/org/instancio/internal/selectors/SelectorImpl.java:169-179 | equality is reflexive, symmetric and transitive |
| SelectorLaws.DiagnosticsAreInvisible | instancio-core/src/main/java/org/instancio/internal/selectors/SelectorImpl.java:164-189 | changing the parent or the stack trace breaks neither equality nor the hash |
| SelectorLaws.IndependentlyCreatedSelectorsAreEqual | instancio-core/src/main/java/org/instancio/internal/selectors/SelectorImpl.java:69-74 | selectors created at different call sites for the same class, field and rootness are equal and hash alike |
| SelectorLaws.CopyThenBuild | instancio-core/src/main/java/org/instancio/internal/selectors/SelectorImpl.java:76-97 | building from a copy-builder returns the copied selector with isRoot false, and the result equals the original exactly when the original was not root |
| SelectorLaws.BuildThenCopy | instancio-core/src/main/java/org/instancio/internal/selectors/SelectorImpl.java:76-97 | copying a built selector back recovers a non-root builder that had scopes and a stack trace set |
| SelectorLaws.FreshHolderOnlyWhenUnset | instancio-core/src/main/java/org/instancio/internal/selectors/SelectorImpl.java:83 | build creates a new stack trace only when the builder holds none |
| SelectorLaws.WithinReplacesScopes | instancio-core/src/main/java/org/instancio/internal/selectors/SelectorImpl.java:125-128 | a second within replaces the scopes of the first instead of appending to them |
| SelectorLaws.WithinKeepsTheRest | instancio-core/src/main/java/org/instancio/internal/selectors/SelectorImpl.java:88-97 | within keeps class, field, depth, parent and the original stack trace |
| SelectorLaws.AtDepthKeepsTheRest | instancio-core/src/main/java/org/instancio/internal/selectors/SelectorImpl.java:113-118 | a valid atDepth sets the depth and keeps class, field, scopes, parent and the original stack trace; the last depth set wins |
| SelectorLaws.WithinAndAtDepthCommute | instancio-core/src/main/java/org/instancio/internal/selectors/SelectorImpl.java:113-128 | narrowing by scopes and by depth can be done in either order |
| SelectorLaws.DerivationRespectsEquality | instancio-core/src/main/java/org/instancio/internal/selectors/SelectorImpl.java:113-128 | within and atDepth applied to equal selectors give equal selectors |
| SelectorLaws.DerivedFromRootIsNotRoot | instancio-core/src/main/java/org/instancio/internal/selectors/SelectorImpl.java:88-103 | within or atDepth on the root selector gives a non-root selector that differs from root; it renders as all(), all(), followed by the formatted scopes, or all().atDepth(n) |
| SelectorLaws.RootRendersAsRoot | instancio-core/src/main/java/org/instancio/internal/selectors/SelectorImpl.java:193 | the root selector renders as root() |
| SelectorLaws.DepthHidesScopes | instancio-core/src/main/java/org/instancio/internal/selectors/SelectorImpl.java:213-218 | once a depth is set, neither the scopes nor how they are formatted affect the text |
| SelectorLaws.EqualSelectorsRenderAlike | instancio-core/src/main/java/org/instancio/internal/selectors/SelectorImpl.java:191-221 | equal selectors without a primitive-and-wrapper parent render alike |
| SelectorLaws.FieldSelectorText | instancio-core/src/main/java/org/instancio/internal/selectors/SelectorImpl.java:200-211 | a class-and-field selector without narrowing renders as field(Simple, "name") |
| SelectorLaws.DistinctDepthsRenderDifferently | instancio-core/src/main/java/org/instancio/internal/selectors/SelectorImpl.java:214-215 | two selectors that differ only in their depth render differently |
| SelectorLaws.RenderedDepthReadsBack | instancio-core/src/main/java/org/instancio/internal/selectors/SelectorImpl.java:214-215 | the depth shown by .atDepth(n) parses back to the selector's depth |
| SelectorLaws.ToScopeIgnoresNarrowing | instancio-core/src/main/java/org/instancio/internal/selectors/SelectorImpl.java:130-133 | toScope holds the selector's class and field; within, atDepth and equal selectors give the same scope |
| JavaInt.HashFoldIsPolynomialModulo | instancio-core/src/main/java/org/instancio/internal/selectors/SelectorImpl.java:188 | the hash loop that wraps after every step equals the exact hash polynomial reduced to 32 bits |
| JavaInt.StringHash | instancio-core/src/main/java/org/instancio/internal/selectors/SelectorImpl.java:188 | a field name's hash is a 32-bit int, and 0 for the empty string |
| Decimal.IntRoundTrip | instancio-core/src/main/java/org/instancio/internal/selectors/SelectorImpl.java:215 | the decimal text of a depth parses back to the same integer |
| ApiValidator.ValidateDepth | instancio-core/src/main/java/org/instancio/internal/selectors/SelectorImpl.java:116 | depth validation passes exactly the non-negative depths and reports the rejected one |
| ApiValidator.IsTrue | instancio-core/src/main/java/org/instancio/generator/lang/AbstractRandomComparableNumberGeneratorSpec.java:62-63 | the check passes exactly when its condition holds, and otherwise raises the given error |
| NumberUtils.CalculateNewMax | instancio-core/src/main/java/org/instancio/generator/lang/AbstractRandomComparableNumberGeneratorSpec.java:34-42 | if the new minimum reaches the current maximum, the maximum moves strictly above it; otherwise it stays |
| NumberUtils.CalculateNewMin | instancio-core/src/main/java/org/instancio/generator/lang/AbstractRandomComparableNumberGeneratorSpec.java:46-55 | if the new maximum reaches down to the current minimum, the minimum moves strictly below it; otherwise it stays |
| ComparableNumberSpec.Min | instancio-core/src/main/java/org/instancio/generator/lang/AbstractRandomComparableNumberGeneratorSpec.java:33-44 | min(x) makes x the minimum; the maximum rises strictly above x when x reaches it and is kept otherwise; the call returns the spec itself and never fails |
| ComparableNumberSpec.Max | instancio-core/src/main/java/org/instancio/generator/lang/AbstractRandomComparableNumberGeneratorSpec.java:46-57 | max(x) makes x the maximum; the minimum drops strictly below x when x reaches down to it and is kept otherwise; the call returns the spec itself and never fails |
| ComparableNumberSpec.Range | instancio-core/src/main/java/org/instancio/generator/lang/AbstractRandomComparableNumberGeneratorSpec.java:59-65 | range assigns both bounds; it succeeds and returns the spec exactly when lo <= hi, and otherwise raises the invalid-range error |
| ComparableNumberSpec.SingleAdjustmentOrders | instancio-core/src/main/java/org/instancio/generator/lang/AbstractRandomComparableNumberGeneratorSpec.java:39-57 | a single min(x) or max(x) leaves min <= max from any starting state |
| ComparableNumberSpec.ImplicitAdjustmentsKeepOrder | instancio-core/src/main/java/org/instancio/generator/lang/AbstractRandomComparableNumberGeneratorSpec.java:39-57 | starting from min <= max, any sequence of min(x) and max(x) calls ends with min <= max |
| ComparableNumberSpec.ImplicitAdjustmentsRepairOrder | instancio-core/src/main/java/org/instancio/generator/lang/AbstractRandomComparableNumberGeneratorSpec.java:39-57 | a non-empty sequence of min(x) and max(x) calls ends with min <= max even from inverted bounds |
| ComparableNumberSpec.ImplicitAdjustmentsKeepNullable | instancio-core/src/main/java/org/instancio/generator/lang/AbstractRandomComparableNumberGeneratorSpec.java:39-57 | min(x) and max(x) calls never change the nullable flag |
| ComparableNumberSpec.SeparateBoundsMatchRange | instancio-core/src/main/java/org/instancio/generator/lang/AbstractRandomComparableNumberGeneratorSpec.java:39-64 | for lo < hi, setting min(lo) and max(hi) one at a time, in either order, gives the same bounds as range(lo, hi) |
| ComparableNumberSpec.RejectedRangeLeavesBoundsInverted | instancio-core/src/main/java/org/instancio/generator/lang/AbstractRandomComparableNumberGeneratorSpec.java:59-64 | a rejected range(lo, hi) raises an error and leaves the inverted bounds in the spec |
| ComparableNumberSpec.RaiseMinThenInvertedRange | instancio-core/src/main/java/org/instancio/generator/lang/AbstractRandomComparableNumberGeneratorSpec.java:40-63 | with bounds [10, 20], min(25) pushes the maximum above 25, and a following range(5, 3) fails and leaves (5, 3) |

## Left out

- `getDescription` (the selector text plus the first stack-trace line outside the library) is not modelled. `Format.firstNonInstancioStackTraceLine` is not part of this model, so a stack trace is only an opaque token.
- `Format.formatScopes` and `Class.getSimpleName` are not part of this model. Both are function fields of the `Formatter` argument of `ToString`.
- The text of a primitive-and-wrapper parent comes from `PrimitiveAndWrapperSelectorImpl`, which is not part of this model. It is carried as an opaque string.
- `equals` against objects that are not `SelectorImpl` (the `instanceof` test) is not modelled: `Equals` compares two selectors only.
- Null elements inside the scopes passed to `within` are not modelled.
- Aliasing of the scope list is not modelled. `within` stores an unmodifiable view over the caller's varargs array, and `Builder.scopes` keeps the caller's list. If the caller later changes that array or list, the selector's scopes, equality and hash change with it. A `seq<Scope>` is a value, so the model assumes the caller never does this.
- `ScopeImpl` is not part of this model. Its hash is taken to be `Objects.hash(targetClass, fieldName)`. `Class.hashCode` is an identity hash, and the model fixes one admissible choice: the identity wrapped to 32 bits.
- JavaInt.StringHash: each Dafny character is counted as one UTF-16 code unit. Java splits characters outside the Basic Multilingual Plane into two units, so those strings hash differently.
- The messages carried by API-misuse errors are not modelled. An error records only its kind and the offending values.
- NumberUtils.CalculateNewMax: `NumberUtils` is not part of this model. Only the documented contract (strictly above, or unchanged) is relied on. The padding amount in the body, a percentage of the bound's magnitude and at least 1, is a stand-in.
- ComparableNumberSpec.RangeAdjustmentPercentage: the real constant lives in `Constants`, which is not part of this model. The value 50 is a stand-in, and no lemma depends on it.
- Bounds are unbounded mathematical integers. The finite width of `Integer`/`Long` (for example, no value above `Integer.MAX_VALUE` to pad to) and the `Float`/`Double` instantiations are not modelled.
- Null bounds are not modelled: bounds are `int`, never null. In the source the bounds are references. `range(null, hi)` or `range(lo, null)` reaches `min.compareTo(max)` and throws a NullPointerException rather than the API-misuse error, unless the base class rejects null first. `min(null)` and `max(null)` pass null on to `calculateNewMax`/`calculateNewMin`, whose behaviour with null is not part of this model.
- The base class `AbstractRandomNumberGeneratorSpec` is not part of this model. Its `min`, `max` and `range` are taken to assign the bounds. Its `nullable` setter and random value generation through `GeneratorContext` are not modelled.
- Matching selectors against graph nodes and resolving precedence among selectors is not modelled. That belongs to the traversal engine, which is not part of this model.
- `ReflectionUtils` (reflective field and class access) and the annotation processor (compile-time code generation) are not modelled. Both work on live classes or build-time I/O.
