# fp-concepts-jvm in Dafny

A model of the functional-programming building blocks of the `io.github.ajoz`
examples (Java, with a Kotlin port of the validation part), with the
properties their code and tests promise proved about the model.

- **`Try` and the `Iter` pull pipeline.** `Try` is a Success/Failure value
  with `map`, `flatMap`, `filter`, `recover`, `recoverWith`, `getOrElse`,
  `get`, `ofNullable` and `ifSuccess`/`ifFailure`. An `Iter` has one method,
  `next(): Try<T>`. The sources are an array, the empty Iter and a
  seed-and-generator. The decorators are map, filter, flatMap, take and
  onEach. The consumers are `forEach` and the `hasNext`/`next` bridge to
  `java.util.Iterator`.
  - An Iter is modelled as a state datatype plus a total step function
    (`IterProtocol.Pull`). Its behaviour over any number of calls is the
    trace `IterProtocol.Pulls`.
  - Each decorator is generic over its upstream's state and takes the
    upstream step as a parameter.
  - `FilterIter.next` and `forEach` may loop for ever on an endless
    upstream. Both are therefore methods with a ghost bound on the
    upstream pulls they need.
- **`Validation`**: an error-accumulating applicative (Java and Kotlin),
  with the Kotlin `NonEmptyList` as the semigroup of errors, and the
  `Person` validation of the tests.
- **Lists, folds and `Seq`.** This covers the static list helpers of
  `Lists`, the fold library of `Fold5FunctionalLibrary`, the recursive
  folds of `Fold6FunctionalLibrary`, and the cons-list `Seq`.
- **Two small validators**: the flag-driven string `match` of
  `NoIfs1ImperativeExample`, and the `tryParse` functions of `CSSColor2`.

Java `int` arithmetic is modelled explicitly (`JavaInt`):
- `Integer` sums, products and counts wrap around at 32 bits;
- `/` truncates toward zero;
- `"" + n` is `JavaInt.DecimalString`.

A thrown exception is either a `Tries.Failure`, or the `Throws` side of
`Tries.Outcome` for calls that throw instead of returning a `Try`. Consumer
side effects (`ifSuccess`, `onEach`, `forEach`) are modelled as a log of
the action's results.

## Model

| member | source | states |
|---|---|---|
| Tries.IsFailure | java/src/main/java/io/github/ajoz/util/Try.java:38-40 | `isFailure` is the negation of `isSuccess`, i.e. true exactly on a Failure |
| Tries.OfNullable | java/src/main/java/io/github/ajoz/util/Try.java:52-58 | null gives a Failure with the null-value exception; any other reference gives Success of it |
| Tries.Map | java/src/main/java/io/github/ajoz/util/Try.java:116-119 | Success(x) maps to Success(f(x)); a Failure keeps its cause |
| Tries.FlatMap | java/src/main/java/io/github/ajoz/util/Try.java:111-114 | Success(x) becomes f(x) unchanged; a Failure passes its cause through |
| Tries.Filter | java/src/main/java/io/github/ajoz/util/Try.java:98-109 | the result is a Success iff the input is a Success whose value satisfies the predicate; a rejected Success becomes the IllegalArgument failure; a Failure stays as it is |
| Tries.Recover | java/src/main/java/io/github/ajoz/util/Try.java:150-153 | always a Success; the identity on a Success; recovery(cause) on a Failure |
| Tries.RecoverWith | java/src/main/java/io/github/ajoz/util/Try.java:155-158 | the identity on a Success; the recovery's own Try on a Failure |
| Tries.Get | java/src/main/java/io/github/ajoz/util/Try.java:185-188 | returns the value exactly for a Success; a Failure throws the "No such element!" exception |
| Tries.IfSuccess | java/src/main/java/io/github/ajoz/util/Try.java:136-140 | returns the receiver unchanged; the action runs once on a Success and never on a Failure |
| Tries.IfFailure | java/src/main/java/io/github/ajoz/util/Try.java:195-199 | returns the receiver unchanged; the action runs once on a Failure cause and never on a Success |
| Tries.GetOrElseAgreesWithGet | java/src/main/java/io/github/ajoz/util/Try.java:121-124 | `getOrElse` is what `get` returns when `get` returns, and the default when `get` throws |
| Tries.RecoverThenGet | java/src/main/java/io/github/ajoz/util/Try.java:180-183 | recovering with a constant and then calling `get` never throws and equals `getOrElse` |
| Tries.MapIdentity | java/src/main/java/io/github/ajoz/util/Try.java:175-178 | mapping the identity function changes nothing |
| Tries.MapComposition | java/src/main/java/io/github/ajoz/util/Try.java:116-119 | mapping f and then g is mapping their composition |
| Tries.MapIsFlatMapSuccess | java/src/main/java/io/github/ajoz/util/Try.java:111-119 | `map(f)` equals `flatMap` of f followed by `success` |
| Tries.FlatMapRightIdentity | java/src/main/java/io/github/ajoz/util/Try.java:170-173 | `flatMap(success)` is the identity |
| Tries.FlatMapAssociative | java/src/main/java/io/github/ajoz/util/Try.java:111-114 | `flatMap` is associative |
| Tries.FilterIdempotent | java/src/main/java/io/github/ajoz/util/Try.java:160-168 | filtering twice by the same predicate equals filtering once |
| Tries.RecoverIsRecoverWithSuccess | java/src/main/java/io/github/ajoz/util/Try.java:76-83 | `recover(r)` equals `recoverWith` of r followed by `success` |
| IterSources.NewArrayIter | java/src/main/java/io/github/ajoz/iter/ArrayIter.java:12-14 | a fresh ArrayIter holds the array with its cursor at 0 |
| IterSources.ArrayNext | java/src/main/java/io/github/ajoz/iter/ArrayIter.java:16-27 | a Success exactly while the cursor is inside the array; it yields `array[current]` and advances the cursor by one; at the end it fails ("No elements" for an empty array, "No more elements" otherwise) without moving |
| IterSources.ArrayTrace | java/src/main/java/io/github/ajoz/iter/ArrayIter.java:21-26 | over n calls, call k yields `array[i + k]` while inside the array and fails after that; the cursor ends at `min(i + n, length)` |
| IterSources.ArrayRoundTrip | java/src/main/java/io/github/ajoz/iter/ArrayIter.java:16-27 | an ArrayIter yields exactly the remaining array elements, in order, then fails; what is collected is the array itself |
| IterSources.EmptyArrayFailsFirst | java/src/main/java/io/github/ajoz/iter/ArrayIter.java:18-19 | an ArrayIter over an empty array fails on the first call with "No elements in this Iter!" |
| IterSources.ArrayOfThree | java/src/test/java/io/github/ajoz/iter/ArrayIterTest.java:35-58 | an ArrayIter over 1, 2, 3 yields 1, 2, 3 and then only Failures |
| IterSources.EmptyNext | java/src/main/java/io/github/ajoz/iter/EmptyIter.java:9-11 | every call fails with the "Empty sequence" no-such-element exception |
| IterSources.EmptyTrace | java/src/test/java/io/github/ajoz/iter/EmptyIterTest.java:8-14 | any number of calls to the empty Iter all fail with the same exception |
| IterSources.Seed1Next | java/src/main/java/io/github/ajoz/iter/Seed1Iter.java:17-23 | always a Success of the current seed, and the seed becomes generator(seed) |
| IterSources.Seed1Trace | java/src/main/java/io/github/ajoz/iter/Seed1Iter.java:19-22 | call k (from 0) yields the generator applied k times to the seed, and never a Failure |
| IterDecorators.MapNext | java/src/main/java/io/github/ajoz/iter/MapIter.java:18-20 | one upstream pull; its result with the mapper applied to a Success and a Failure's cause kept |
| IterDecorators.MapTrace | java/src/main/java/io/github/ajoz/iter/MapIter.java:19 | over n calls, each result is the corresponding upstream result mapped, and the upstream was pulled exactly n times |
| IterDecorators.MapCollected | java/src/main/java/io/github/ajoz/iter/MapIter.java:18-20 | an upstream that yields xs and then fails is mapped to an Iter that yields f mapped over xs, in order, then fails with the same cause |
| IterDecorators.FilterNext | java/src/main/java/io/github/ajoz/iter/FilterIter.java:18-33 | the loop stops within the bound; the result is the last upstream result pulled; it is a Failure or a Success that satisfies the predicate; every earlier pull was a discarded Success |
| IterDecorators.FiniteUpstreamStops | java/src/main/java/io/github/ajoz/iter/FilterIter.java:19-33 | over an upstream that yields xs and then fails, `next` stops within `len(xs) + 1` pulls |
| IterDecorators.FlatMapNext | java/src/main/java/io/github/ajoz/iter/FlatMapIter.java:18-26 | one upstream pull; a Failure passes through; a Success(t) gives only the first result of mapper(t) |
| IterDecorators.FlatMapTrace | java/src/main/java/io/github/ajoz/iter/FlatMapIter.java:19-25 | over n calls, call k is the upstream's k-th result flat-mapped to the first pull of its inner Iter, and the upstream was pulled n times |
| IterDecorators.FlatMapYieldsFirstOnly | java/src/main/java/io/github/ajoz/iter/FlatMapIter.java:21-25 | ["a","b"] flat-mapped with x to [x, x] gives a, b, then a Failure; the second copy of each element is never seen |
| IterDecorators.FlatMapEmptyInnerFails | java/src/main/java/io/github/ajoz/iter/FlatMapIter.java:21-25 | an empty inner Iter makes the call fail even though the upstream still has elements |
| IterDecorators.TakeNext | java/src/main/java/io/github/ajoz/iter/TakeIter.java:19-35 | one upstream pull always; a Failure passes through uncounted; a Success is returned iff fewer than `amount` were taken, and the counter goes up exactly then; the counter stays within 0..amount |
| IterDecorators.TakeTrace | java/src/main/java/io/github/ajoz/iter/TakeIter.java:21-29 | over n calls the results are the reference `TakeLimit` of the upstream's n results: upstream pulled once per call even past the limit, counter ending at the Successes let through |
| IterDecorators.TakeLimitAt | java/src/main/java/io/github/ajoz/iter/TakeIter.java:27-33 | result k is upstream result k, except that a Success becomes the "Reached the Iter amount" Failure once `amount` Successes have passed |
| IterDecorators.TakeLimitSuccesses | java/src/main/java/io/github/ajoz/iter/TakeIter.java:27-33 | the number of Successes let through is what the counter adds, which stops at `amount` |
| IterDecorators.TakeAtMost | java/src/main/java/io/github/ajoz/iter/TakeIter.java:27-29 | a fresh TakeIter returns at most `amount` Successes however often it is called |
| IterDecorators.TakeOfEndless | java/src/main/java/io/github/ajoz/iter/TakeIter.java:21-33 | over an upstream that keeps succeeding, call k returns upstream value k for k < amount and the limit Failure afterwards |
| IterDecorators.NaturalsDoubledTakeTen | java/src/main/java/io/github/ajoz/iter/Seed1Iter.java:17-23 | the naturals from seed 0, doubled and limited to 10, yield 0, 2, ..., 18 and then the limit Failure |
| IterDecorators.TakeTwoOfFour | java/src/test/java/io/github/ajoz/iter/TakeIterTest.java:17-26 | `from(1,2,3,4).take(2)` returns 1 and 2, and fails on the third call |
| IterDecorators.TakeOfEmptyFails | java/src/test/java/io/github/ajoz/iter/TakeIterTest.java:9-14 | `empty().take(10)` fails on the first call, with the empty Iter's exception |
| IterDecorators.OnEachNext | java/src/main/java/io/github/ajoz/iter/OnEachIter.java:18-22 | one upstream pull; its result is returned unchanged |
| IterDecorators.OnEachTrace | java/src/main/java/io/github/ajoz/iter/OnEachIter.java:21 | over n calls the results are the upstream's unchanged; the action ran exactly once per upstream Success, in order, and never for a Failure |
| IterProtocol.PullsSnoc | java/src/main/java/io/github/ajoz/iter/Iter.java:9-11 | n + 1 calls are n calls followed by one more `next()` on the state they leave |
| IterProtocol.YieldsThenCollected | java/src/main/java/io/github/ajoz/iter/Iters.java:9-17 | an Iter that yields xs and then fails has failed within `len(xs) + 1` calls, and what is collected is exactly xs |
| IterProtocol.CollectedStable | java/src/main/java/io/github/ajoz/iter/Iters.java:14-15 | once an Iter has failed, further calls add nothing to what is collected |
| IterConsumers.ForEach | java/src/main/java/io/github/ajoz/iter/Iters.java:9-17 | the action runs on each Success in pull order, never on a Failure, and the loop stops right after the first Failure |
| IterConsumers.ForEachOfFinite | java/src/main/java/io/github/ajoz/iter/Iters.java:11-15 | over an Iter that yields xs and then fails, `forEach` terminates and applies the action to exactly xs |
| IterConsumers.ForEachFiltered | java/src/main/java/io/github/ajoz/iter/FilterIter.java:18-33 | `forEach` over a FilterIter whose upstream yields xs and then fails runs the action on exactly the elements of xs that satisfy the predicate, in order |
| IterConsumers.NewIterIterator | java/src/main/java/io/github/ajoz/iter/IterIterator.java:11-12 | a new bridge must check, and its buffer is a Failure |
| IterConsumers.HasNext | java/src/main/java/io/github/ajoz/iter/IterIterator.java:18-26 | pulls from the Iter only when the buffer was consumed; otherwise the state is unchanged; returns whether the buffer holds a Success |
| IterConsumers.IterNext | java/src/main/java/io/github/ajoz/iter/IterIterator.java:28-33 | returns the buffered value and marks the buffer consumed; on a Failure buffer it throws the `get` exception and changes nothing |
| IterConsumers.HasNextIdempotent | java/src/main/java/io/github/ajoz/iter/IterIterator.java:20-25 | a second `hasNext` without `next` gives the same answer and does not pull again |
| IterConsumers.NextBeforeHasNextThrows | java/src/main/java/io/github/ajoz/iter/IterIterator.java:12 | `next` on a fresh bridge throws, because the initial buffer is a Failure |
| IterConsumers.NextAfterFalseThrows | java/src/main/java/io/github/ajoz/iter/IterIterator.java:25-30 | after `hasNext` returned false, `next` throws |
| IterConsumers.DrainBridge | java/src/main/java/io/github/ajoz/iter/Iters.java:19-21 | iterating the `toIterable` bridge with `hasNext`/`next` visits exactly what the Iter yields before its first Failure |
| IterConsumers.NextTwiceRepeats | java/src/main/java/io/github/ajoz/iter/IterIterator.java:29-33 | over [1, 2], `hasNext`, `next`, `next` returns 1 twice: the second `next` does not pull |
| IterConsumers.IterNextChecked | java/src/main/java/io/github/ajoz/iter/IterIterator.java:19-33 | a `next` that first refills a consumed buffer returns the Iter's next value and throws only at its end |
| IterConsumers.DrainByNext | java/src/main/java/io/github/ajoz/iter/IterIterator.java:29-33 | with the corrected `next`, calling only `next` yields exactly the Iter's values and then throws |
| NonEmptyLists.ToList | kotlin/src/main/kotlin/io/github/ajoz/NonEmptyList.kt:5-14 | the underlying list is never empty; it starts with the first element, followed by the rest |
| NonEmptyLists.FromList | kotlin/src/main/kotlin/io/github/ajoz/NonEmptyList.kt:12-14 | the private constructor keeps exactly the given non-empty list |
| NonEmptyLists.Of | kotlin/src/main/kotlin/io/github/ajoz/NonEmptyList.kt:8-10 | a list built from one item holds exactly that item |
| NonEmptyLists.AppendItem | kotlin/src/main/kotlin/io/github/ajoz/NonEmptyList.kt:16-21 | `append(item)` is the receiver's elements followed by the item |
| NonEmptyLists.Append | kotlin/src/main/kotlin/io/github/ajoz/NonEmptyList.kt:23-28 | `append(other)` is order-preserving concatenation, and the lengths add up |
| NonEmptyLists.Map | kotlin/src/main/kotlin/io/github/ajoz/NonEmptyList.kt:30-31 | `map` applies the function to every element, keeping length and order |
| NonEmptyLists.EqualsIsIdentity | kotlin/src/main/kotlin/io/github/ajoz/NonEmptyList.kt:37-42 | two lists are `equals` exactly when they are the same value |
| NonEmptyLists.FromListRoundTrip | kotlin/src/main/kotlin/io/github/ajoz/NonEmptyList.kt:12-14 | rebuilding a list from its underlying list gives it back |
| NonEmptyLists.AppendAssociative | kotlin/src/main/kotlin/io/github/ajoz/Semigroup.kt:7-8 | `append` is associative, the semigroup law |
| NonEmptyLists.AppendItemIsAppendOf | kotlin/src/main/kotlin/io/github/ajoz/NonEmptyList.kt:16-28 | appending an item equals appending the one-item list |
| NonEmptyLists.MapAppend | kotlin/src/main/kotlin/io/github/ajoz/NonEmptyList.kt:23-31 | `map` distributes over `append` |
| Validations.IsFailure | kotlin/src/main/kotlin/io/github/ajoz/validation/Validation.kt:17-18 | `isFailure` is the negation of `isSuccess` |
| Validations.Map | java/src/main/java/io/github/ajoz/validation/Validation.java:17-20 | a Success maps its value; a Failure keeps its error |
| Validations.FlatMap | kotlin/src/main/kotlin/io/github/ajoz/validation/Validation.kt:42-48 | on a Success the result is func(value); on a Failure the error is kept |
| Validations.Ap | java/src/main/java/io/github/ajoz/validation/Validation.java:112-143 | the four-case table: two Failures append their errors (left, then right); one Failure gives its own error; two Successes give f(a) |
| Validations.ApLeft | java/src/main/java/io/github/ajoz/validation/Validation.java:81-84 | two Successes give the left one; a single Failure's error is kept; two Failures append their errors |
| Validations.ApRight | java/src/main/java/io/github/ajoz/validation/Validation.java:86-90 | two Successes give the right one; a single Failure's error is kept; two Failures append their errors |
| Validations.GetValue | java/src/main/java/io/github/ajoz/validation/Validation.java:55-57 | returns the value exactly for a Success; on a Failure it throws |
| Validations.GetError | java/src/main/java/io/github/ajoz/validation/Validation.java:30-32 | returns the error exactly for a Failure; on a Success it throws |
| Validations.Value | kotlin/src/main/kotlin/io/github/ajoz/validation/Validation.kt:11-12 | the `value` property returns exactly for a Success and throws "No value element available!" otherwise |
| Validations.Error | kotlin/src/main/kotlin/io/github/ajoz/validation/Validation.kt:14-15 | the `error` property returns exactly for a Failure and throws "No error element available!" otherwise |
| Validations.AccessorsExclusive | java/src/main/java/io/github/ajoz/validation/Validation.java:22-32 | in each language exactly one of the two accessors returns, and both languages agree on which |
| Validations.MapIsApSuccess | kotlin/src/main/kotlin/io/github/ajoz/validation/Validation.kt:53-63 | mapping equals applying a Success of the function |
| Validations.ApIdentity | kotlin/src/main/kotlin/io/github/ajoz/validation/Validation.kt:59-61 | applying a Success of the identity changes nothing |
| Validations.ApHomomorphism | kotlin/src/main/kotlin/io/github/ajoz/validation/Validation.kt:61 | applying Success(f) to Success(a) is Success(f(a)) |
| Validations.ApInterchange | kotlin/src/main/kotlin/io/github/ajoz/validation/Validation.kt:53-63 | applying u to Success(a) equals applying "apply to a" to u |
| Validations.ApComposition | kotlin/src/main/kotlin/io/github/ajoz/validation/Validation.kt:53-63 | for an associative `append`, `ap` satisfies the applicative composition law, error order included |
| Validations.ApLeftApRightAgreeOnErrors | kotlin/src/main/kotlin/io/github/ajoz/validation/Validation.kt:32-37 | `apLeft` and `apRight` fail on the same inputs and then carry the same accumulated error |
| Validations.ApAccumulatesLists | kotlin/src/main/kotlin/io/github/ajoz/validation/Validation.kt:55-56 | with `NonEmptyList` errors, `ap` of two Failures lists the left errors and then the right ones |
| Validations.ValidatePerson | java/src/test/java/io/github/ajoz/validation/PersonTest.java:17-46 | the person validates iff name, email and age all validate, and then it holds exactly those three fields |
| Validations.AllWrongAccumulates | java/src/test/java/io/github/ajoz/validation/PersonTest.java:71-76 | all three fields wrong gives the name, email and age errors joined by line breaks, in that order |
| Validations.OneWrongReportsIt | java/src/test/java/io/github/ajoz/validation/PersonTest.java:48-70 | a single wrong field gives exactly that field's error |
| Validations.AllRightBuildsPerson | java/src/test/java/io/github/ajoz/validation/PersonTest.java:78-85 | valid fields give the person |
| Lists.Head | java/src/main/java/io/github/ajoz/lists/Lists.java:53-57 | returns element 0 exactly for a non-empty list; an empty list throws "head of empty list" |
| Lists.Tail | java/src/main/java/io/github/ajoz/lists/Lists.java:69-76 | an empty list throws "tail of empty list"; a singleton gives the empty list; otherwise the first element is dropped |
| Lists.FoldLeftLoop | java/src/main/java/io/github/ajoz/lists/Lists.java:86-95 | the accumulator loop computes the left fold: `initial` for an empty list, `op` applied left to right |
| Lists.FoldLeftCons | java/src/main/java/io/github/ajoz/lists/Lists.java:86-95 | folding consumes the first element first: `foldLeft(x::xs, i) == foldLeft(xs, op(i, x))` |
| Lists.Join | java/src/main/java/io/github/ajoz/lists/Lists.java:22-28 | an empty list joins to ""; a singleton joins to its element's text alone |
| Lists.JoinIsInterleave | java/src/main/java/io/github/ajoz/lists/Lists.java:27 | `join` puts the separator strictly between neighbouring elements and nowhere else |
| Lists.MkString | java/src/main/java/io/github/ajoz/lists/Lists.java:38-43 | an empty list gives "List()" |
| Lists.MkStringWrapsJoin | java/src/main/java/io/github/ajoz/lists/Lists.java:38-43 | `mkString` is always "List(" + the ", "-separated elements + ")" |
| Lists.FlattenIsConcatAll | java/src/main/java/io/github/ajoz/lists/Lists.java:106-111 | `flatten` is the in-order concatenation of the inner lists |
| Folds.SumWraps | java/src/main/java/io/github/ajoz/fold/Fold5FunctionalLibrary.java:41-43 | `sum` is the mathematical sum wrapped to 32 bits, so 0 for an empty list |
| Folds.ProductWraps | java/src/main/java/io/github/ajoz/fold/Fold5FunctionalLibrary.java:51-53 | `product` is the mathematical product wrapped to 32 bits, so 1 for an empty list |
| Folds.CountIsLength | java/src/main/java/io/github/ajoz/fold/Fold5FunctionalLibrary.java:65-67 | `count` is the length (wrapped to 32 bits, hence the length itself for any list Java can hold) |
| Folds.Last | java/src/main/java/io/github/ajoz/fold/Fold5FunctionalLibrary.java:79-81 | a non-empty list gives its final element; an empty list throws through `head` |
| Folds.ReverseMirrors | java/src/main/java/io/github/ajoz/fold/Fold5FunctionalLibrary.java:90-92 | `reverse` keeps the length and puts element i at position `len - 1 - i` |
| Folds.ReverseCons | java/src/main/java/io/github/ajoz/fold/Fold5FunctionalLibrary.java:177-183 | reversing a list moves its first element to the end of the reversed rest |
| Folds.ReverseExample | java/src/test/java/io/github/ajoz/fold/Fold5FunctionalLibraryTest.java:191-200 | reverse of [1,2,3,4] is [4,3,2,1] |
| Folds.Size | java/src/main/java/io/github/ajoz/fold/Fold5FunctionalLibrary.java:102 | `size()` is the length for any list shorter than `Integer.MAX_VALUE`, and positive for a non-empty list |
| Folds.AverageWithinRange | java/src/main/java/io/github/ajoz/fold/Fold5FunctionalLibrary.java:101-103 | when the sum does not overflow, the truncated `sum / size` lies between the smallest and largest bound of the elements |
| Folds.TruncDivBetween | java/src/main/java/io/github/ajoz/fold/Fold5FunctionalLibrary.java:102 | Java's truncating division of a value between `n*lo` and `n*hi` by n lies between lo and hi |
| Folds.ContainsIffIn | java/src/main/java/io/github/ajoz/fold/Fold5FunctionalLibrary.java:114-117 | `contains` is true exactly when some element equals the searched item |
| Folds.Penultimate | java/src/main/java/io/github/ajoz/fold/Fold5FunctionalLibrary.java:159-167 | returns iff there are at least two elements; throws "list is empty" for none and "list has only one element" for one |
| Folds.PenultimateIsSecondToLast | java/src/main/java/io/github/ajoz/fold/Fold5FunctionalLibrary.java:166 | for two or more elements, the window fold returns the element at index `size - 2` |
| Folds.FoldRightIsRightFold | java/src/main/java/io/github/ajoz/fold/Fold5FunctionalLibrary.java:288-292 | `foldRight` (left fold of the reversed list, arguments flipped) is the right fold `op(x1, op(x2, ... op(xn, initial)))` |
| Folds.FoldRightExample | java/src/test/java/io/github/ajoz/fold/Fold5FunctionalLibraryTest.java:202-212 | `foldRight` of ["this","is","a","test"] from "INITIAL" with `_` gives "this_is_a_test_INITIAL" |
| Folds.FoldLeftRecursiveIsFoldLeft | java/src/main/java/io/github/ajoz/fold/Fold6FunctionalLibrary.java:60-67 | the recursive left fold computes the same as the iterative one |
| Folds.FoldRightRecursiveIsReversedFoldLeft | java/src/main/java/io/github/ajoz/fold/Fold6FunctionalLibrary.java:99-106 | `op(foldRightRecursive(tail), head)` is the left fold of the reversed list |
| Folds.SumRightWraps | java/src/main/java/io/github/ajoz/fold/Fold6FunctionalLibrary.java:124-126 | `sumRightRecursive` is the mathematical sum wrapped to 32 bits |
| Folds.SumsAgree | java/src/test/java/io/github/ajoz/fold/Fold6FunctionalLibraryTest.java:60-80 | `sumLeftRecursive` and `sumRightRecursive` agree with each other and with Fold5's `sum` on every list the recursion can finish (no call-stack limit is modelled) |
| Folds.SumExample | java/src/test/java/io/github/ajoz/fold/Fold6FunctionalLibraryTest.java:16-25 | both recursive sums of [1,3,5,7] are 16 |
| Sequences.GetHead | java/src/main/java/io/github/ajoz/sequence/Seq.java:125-128 | returns the first element exactly for a non-empty sequence; `Nil` throws a no-such-element exception (`Nil.getHead`, Seq.java:169-171) |
| Sequences.GetTail | java/src/main/java/io/github/ajoz/sequence/Seq.java:130-133 | returns the sequence of all elements but the first exactly for a non-empty sequence; `Nil` throws (`Nil.getTail`, Seq.java:174-176) |
| Sequences.Of | java/src/main/java/io/github/ajoz/sequence/Seq.java:69-77 | `of(list)` iterates back to the same elements in order |
| Sequences.OfElements | java/src/main/java/io/github/ajoz/sequence/Seq.java:69-77 | rebuilding a sequence with `of` from what it yields gives it back |
| Sequences.Drain | java/src/main/java/io/github/ajoz/sequence/Seq.java:106-123 | the `Cons` iterator, run to the end, visits exactly the sequence's elements in order |
| Sequences.TakeKeepsOneMore | java/src/main/java/io/github/ajoz/sequence/Seq.java:23-32 | `take(t)` keeps the first `min(length, t + 1)` elements (for negative t, the counter's unsigned reading + 1) |
| Sequences.TakeZeroYieldsOne | java/src/main/java/io/github/ajoz/sequence/Seq.java:27-28 | `take(0)` of [1, 2] yields [1] |
| Sequences.TakeCorrectedKeepsN | java/src/main/java/io/github/ajoz/sequence/Seq.java:23-32 | the corrected `take(n)` keeps exactly the first `min(length, max(n, 0))` elements |
| Sequences.Zip | java/src/main/java/io/github/ajoz/sequence/Seq.java:44-58 | the length is the shorter length, and element i is the zipper applied to both element i's |
| Sequences.Generate | java/src/main/java/io/github/ajoz/sequence/Seq.java:64-67 | the first n cells of `generate` number n and start with the seed |
| Sequences.GenerateIterates | java/src/main/java/io/github/ajoz/sequence/Seq.java:64-67 | element k of `generate(seed, g)` is g applied k times to the seed |
| Sequences.GeneratePrefixes | java/src/main/java/io/github/ajoz/sequence/Seq.java:66 | a shorter prefix of `generate` is a prefix of a longer one |
| Sequences.Concat | java/src/main/java/io/github/ajoz/sequence/Seq.java:79-94 | `concat(seq, other)` yields the elements of seq followed by those of other (so `concat(Nil, other)` is other) |
| Sequences.Map | java/src/main/java/io/github/ajoz/sequence/Seq.java:140-143 | `map` applies the function to each element, keeping length and order; `Nil` maps to `Nil` |
| Sequences.FlatMap | java/src/main/java/io/github/ajoz/sequence/Seq.java:145-148 | `flatMap` yields the concatenation of the mapped sub-sequences, in order |
| Sequences.FlatMapExample | java/src/main/java/io/github/ajoz/sequence/SeqTest.java:18-20 | "This", "is", "a", "test" flat-mapped to two copies each yields every word twice, in order |
| NoIfs.ToLower | java/src/main/java/io/github/ajoz/noifs/NoIfs1ImperativeExample.java:42-44 | lower-casing keeps the length and lower-cases each character in place |
| NoIfs.Contains | java/src/main/java/io/github/ajoz/noifs/NoIfs1ImperativeExample.java:53 | `contains` is true exactly when the pattern occurs at some position of the target |
| NoIfs.GlobalMatchIsEquality | java/src/main/java/io/github/ajoz/noifs/NoIfs1ImperativeExample.java:50-51 | a global match is equality of the strings, after lower-casing both when case is ignored |
| NoIfs.LocalMatchIsOccurrence | java/src/main/java/io/github/ajoz/noifs/NoIfs1ImperativeExample.java:52-54 | a local match is an occurrence of `what` in `where`, after lower-casing both when case is ignored |
| NoIfs.MatchReflexive | java/src/test/java/io/github/ajoz/noifs/NoIfs1ImperativeExampleTest.java:42-45 | every string matches itself in every mode, the empty string included |
| NoIfs.EmptyWhereMatchesOnlyEmpty | java/src/test/java/io/github/ajoz/noifs/NoIfs1ImperativeExampleTest.java:66-69 | an empty `where` matches no non-empty `what`, in any mode |
| NoIfs.GlobalImpliesLocal | java/src/main/java/io/github/ajoz/noifs/NoIfs1ImperativeExample.java:50-54 | a global match is also a local one |
| NoIfs.SensitiveImpliesInsensitive | java/src/main/java/io/github/ajoz/noifs/NoIfs1ImperativeExample.java:42-48 | a case-sensitive match is also a case-insensitive one |
| NoIfs.ToLowerIdempotent | java/src/main/java/io/github/ajoz/noifs/NoIfs1ImperativeExample.java:43-44 | lower-casing twice is lower-casing once |
| NoIfs.MatchExamples | java/src/test/java/io/github/ajoz/noifs/NoIfs1ImperativeExampleTest.java:20-29 | "ShOrT StRiNg" matches "Short string" ignoring case; "OnEwOrD" contains "One" ignoring case; "SHORT STRING" does not equal "Short string" when case counts |
| CssColors.TryParseComponent | java/src/main/java/io/github/ajoz/illegal/css/CSSColor2.java:18-23 | a Success exactly for 0..255, holding the value; otherwise an IllegalArgument failure that names the value |
| CssColors.ComponentRoundTrip | java/src/main/java/io/github/ajoz/illegal/css/CSSColor2.java:11-23 | every component can be parsed back from its own value |
| CssColors.OutOfRangeExample | java/src/main/java/io/github/ajoz/illegal/css/CSSColor2.java:19-20 | 256 and -1 are rejected with the message ending in "but was: 256" and "but was: -1" |
| CssColors.TryParseName | java/src/main/java/io/github/ajoz/illegal/css/CSSColor2.java:50-55 | every name is accepted, unchanged |
| CssColors.NameRoundTrip | java/src/main/java/io/github/ajoz/illegal/css/CSSColor2.java:43-55 | every colour name can be parsed back from its text |

## Left out

- `Try.ofSupplier`, `IteratorIter`, `PeekIter` and `Iters` beyond `forEach`/`toIterable`: they are not part of this model. The same goes for the other `NoIfs` variants and for `CSSColor3`.
- `Alpha.tryParse` (CSSColor2.java:34-39) works on `float`; floating point is not modelled.
- `Tries.Filter`: the rejection message also contains the formatted value in the source. The model keeps only the fixed text, because `String.format` of an arbitrary value is not modelled.
- Element `toString` (in `join`/`mkString`) is a parameter `show`. `Object.equals` (in `contains`) is Dafny equality.
- NoIfs.ToLower: lower-cases ASCII letters only. `String.toLowerCase` also maps other Unicode letters and depends on the default locale.
- Laziness: suppliers (the `Seq` tails, the deferred `concat` tail) are modelled as the values they compute. The infinite `generate` is modelled through its finite prefixes `Sequences.Generate`.
- `Seq.continously(value)`: an infinite constant sequence. It is `generate` with the identity as the generator, so it is not modelled separately.
- Folds.Size: `List.size()` of lists longer than `Integer.MAX_VALUE` is saturated as in the `List` contract; such lists are not otherwise modelled.
- Folds.AverageWithinRange: the range statement assumes the sum does not overflow. When it does, `average` is the wrapped sum divided by the size, which the model computes but the lemma does not bound.
- `Fold5FunctionalLibrary.head`, `tail`, `foldLeft`, `join`, `mkString` and `flatten` compute the same results as those of `Lists` and are modelled once, there. Fold5's `flatten` copies its accumulator on every step with `append`, while `Lists.flatten` adds to one list in place; the results are the same. `prepend` and `append` are the list operations `[x] + xs` and `xs + ys`.
- IterDecorators.FilterNext: a method, not a step function, because the loop need not terminate on an endless upstream. It therefore cannot itself be the upstream of another decorator in the model. Its callers must bound the pulls it needs (`StopsWithin`).
- IterConsumers.ForEach: also requires a bound on the pulls before the first Failure. On an endless Iter, `forEach` does not terminate, and the model does not describe that.
- `toIterable` creates a fresh `IterIterator` over the same, shared `Iter` on every `iterator()` call. The model covers one bridge at a time.
- IterSources.NewArrayIter: `ArrayIter` keeps a reference to the caller's array (ArrayIter.java:13), so writes to that array after construction change what the Iter yields. The model copies the elements into an immutable sequence at construction.
- IterDecorators.FlatMapNext: the inner Iter's state after its first pull is dropped. That matches Java when `mapper` returns a fresh Iter on every call. A mapper that returns one shared Iter would see it advance across calls in Java; the model does not describe that.
- `FlatMapIter` is modelled as written: each call returns only the first result of the inner Iter. By contrast, `Seq.flatMap` (Seq.java:145-148) concatenates every mapped sub-sequence.
- `append` not modifying the receiver (NonEmptyList.kt) holds by construction: values in the model are immutable.
- Every user-supplied function is total and side-effect free in the model. In Java, an exception thrown by one of them propagates out of the call (or out of `next()`); the model does not describe that. This covers the `Seed1Iter` and `generate` generators, the `MapIter` and `FlatMapIter` mappers, the `FilterIter` predicate, the `onEach` and `forEach` actions, the functions passed to `Try.map`, `flatMap`, `recover` and `recoverWith`, the fold operators, and the `Seq` map/flatMap functions and `zip` zipper.
- `null` list elements are not modelled. In Java they make `join` (`head(list).toString()`, Lists.java:27), `contains` (`item.equals(searched)`, Fold5FunctionalLibrary.java:116) and the integer folds (unboxing in `sum`) throw `NullPointerException`.
- Validations.ValidatePerson: `name.length()` counts UTF-16 code units, while the model counts the characters of a string. The two differ for names with characters outside the Basic Multilingual Plane.
- Folds.FoldLeftRecursive, Folds.FoldRightRecursive, Folds.SumsAgree: Fold6's recursive folds use one Java stack frame per element (Fold6FunctionalLibrary.java:66, :105). On a long enough list they throw `StackOverflowError`, while Fold5's iterative `sum` returns a value. The model has no call stack, so it returns a value for every list, and `SumsAgree` holds only for lists short enough for the recursion to finish.

## Findings

| source | as written | input that shows it | evidently intended | confidence | as-written member | corrected member |
|---|---|---|---|---|---|---|
| java/src/main/java/io/github/ajoz/iter/IterIterator.java:29-33 | `next()` only reads the buffer. Without a `hasNext()` in between, it returns the same element again and never pulls. | an ArrayIter over [1, 2]: `hasNext()`, `next()`, `next()` returns 1 twice | as `java.util.Iterator` requires, `next()` returns the following element, pulling first when the buffer was consumed | high (not executed) | IterConsumers.NextTwiceRepeats | IterConsumers.DrainByNext |
| java/src/main/java/io/github/ajoz/sequence/Seq.java:27-30 | `take(threshold)` keeps the head even at threshold 0, so it yields threshold + 1 elements | `take(0)` of `of([1, 2])` yields [1] | `take(n)` yields the first n elements | medium (not executed) | Sequences.TakeZeroYieldsOne | Sequences.TakeCorrectedKeepsN |
