# Models and proofs for a collection of small programs

The repository is a set of independent programs. This project models seven groups of them in
Dafny and proves what they are for. `dafny verify dfyconfig.toml` checks everything.

## Main results

- The Sylvester solver leaves the one solution of `DX + XE = -C` or fails exactly on a singular equation
  (`ShrSlv.Shrslv`, `BartelsStewart.BsSolve`), the elimination under it likewise
  (`GaussElimination.Sysslv`), the Householder reduction gives an orthogonal similarity to Hessenberg
  form (`Householder.HessenbergForm`), and all together solve `A'X + XB = -C` for full matrices, given
  a correct Schur iteration (`MatrixEquation.SolveEquation`).
- The fast cosine transform computes the cosine sums in place (`FastCosineTransform.Cosfft1`, over
  `Butterflies.FourierTransform`), and forward and inverse undo each other in both orders, in one
  dimension (`CosineRoundTrip.InverseOfForward`, `CosineRoundTrip.ForwardOfInverse`) and in two
  (`PlaneRoundTrip.PlaneInverseOfForward`, `PlaneRoundTrip.PlaneForwardOfInverse`), with sine and cosine
  given by their laws (`Angles.LawsAreEnough`); an entry in the plane is the double sum of cosines
  (`PlaneSeries.PlaneEntry`).
- Chebyshev coefficients: differentiation is the derivative (`Chebyshev.SeriesDifferentiated`), and the
  boundary passes make the double series vanish on all four edges exactly for even sizes
  (`BoundaryTheorems.BoundaryIsHomogeneous`, `BoundaryTheorems.HomogeneousForAllInputs`).
- The lock-free stack is linearizable in every run (`LockFreeStackProof.RunsLinearizable`), a failing
  exchange means progress of another thread (`LockFreeStackRuns.FailureMeansProgress`), and a thread alone
  finishes (`LockFreeStackProgress.AloneFinishes`); the bounded buffer hands the n-th item added to the n-th
  remover (`BoundedBufferItems.NthTakesNth`) without lost wakeups (`BoundedBufferTheorems.StuckIsDone`); the
  histogram kernel equals one pass (`HistogramProof.KernelIsOnePass`).
- The cache is a map that gives up one key per miss (`CacheTheorems.CacheIsMap`), with the exact replacement
  order of its bit matrix (`Recency.MatrixIsHistory`, `CacheTheorems.HitLineSurvives`).
- The virtual machine on one shared array refines a machine with separate code, data and stack on exactly
  the confined runs (`ConfinedRuns.StepConfined`, `ConfinedRuns.ConfinedRunsRefine`), and code compiled from
  an expression computes its value there (`PostfixCode.SharedMemoryRunsToValue`); each instruction is pinned
  in plain numbers (`VmInstructions.BinaryInstructions`, `VmInstructions.UnaryInstructions`).
- The option parser reads an accepted number exactly if and only if its magnitude fits the width
  (`OptionIntegerTheorems.AcceptedIsExactIff`, `OptionIntegerTheorems.TrustedLengths`); its line wrapper
  terminates, cuts lines where the characters say (`DescriptionLayout.OutputIsLayout`) and loses nothing
  visible but one kind of last line (`DescriptionWrapperTheorems.NothingVisibleIsLostIff`).

## The parts

- **Sylvester solver and its linear algebra** (`GaussElimination`, `Sylvester`, `SmallSystems`,
  `SylvesterSingularity`, `ShrSlv`, `Conjugation`, `BartelsStewart`, `Reflections`,
  `HouseholderSpec`, `HouseholderStep`, `Householder`, `MatrixEquation`, over `Matrices`). Arithmetic is over exact
  `real`s. The small systems are solved by `sysslv`, which the comments in the source name as what
  `lu().solve` stands for. The square root is a parameter that is exact on non-negative numbers.
- **Chebyshev coefficient calculus** (`Chebyshev`, `SpectralDifferentiation`,
  `BoundaryConditions`, `BoundaryTheorems`, `SecondDerivative`): differentiation of a series and
  the four passes that impose homogeneous boundary conditions. A comment of the source writes
  the recurrence for the first coefficient with a factor 2k; the code adds `in[1] * span` to half of
  `out[2]`. The code is modelled, and the theorems show that it is right.
- **Set-associative cache** (`Recency`, `CacheModel`, `CacheTheorems`, `SetAssociativeCache`,
  `BitOps`, over `Powers`): the bit matrix against the history of touches, the cache against a
  plain map.
- **Concurrent protocols** as step relations over any number of threads: the Treiber stack
  (`LockFreeStack`, `LockFreeStackProof`, `LockFreeStackRuns`, `LockFreeStackProgress`), the condition-variable
  buffer (`BoundedBuffer`, `BoundedBufferTheorems`, `BoundedBufferItems`, `BoundedBufferProgress`) and the
  GPU histogram (`StrideCounts`, `Histogram`, `HistogramProof`, `HistogramProgress`, `HistogramGlobal`).
- **Stack virtual machine** (`VmWords`, `SharedMemoryVm`, `VmInstructions`, `StackMachine`, `ConfinedRuns`,
  `PostfixCode`): one array for code, data and stack, against a machine with separate parts.
- **Fast cosine transform** (`Powers`, `BitReversal`, `Complexes`, `FourierValues`, `Butterflies`,
  `CosineSums`, `RealTransforms`, `FastCosineTransform`, `CosineRoundTrip`, `Angles`,
  `PlaneTransforms`, `PlaneRoundTrip`, `PlaneSeries`): folding, bit reversal, butterflies, unfolding, running sums
  and the scaling of the inverse, in place, and the two forms of the two-dimensional transform. Sine
  and pi are parameters that are exact for the angles 2 pi / 2^s.
- **Option parser** (`OptionIntegers`, `OptionIntegerTheorems`, `OptionTexts`, `DescriptionWrapper`,
  `DescriptionWrapperTheorems`, `DescriptionLayout`): the modular integer reader and the line wrapper.

Arrays, objects and loops of the source are arrays, classes and loops here; each method is proved
against a function or relation on values, and the theorems are about those. Matrices stored in an
`array2` are tied to values by `Holds`, `HoldsLower`, `HoldsUpper`, `Stores` and `View`; the ghost parameters of such methods
only name the values that the arrays hold. Threads are modelled by a relation for each atomic
step, so the theorems hold for every interleaving.

Four properties one might expect are false of the code. For each the project gives an input and
the exact condition:

- The integer reader accepts some numerals that are out of range: its wrap test only notices an
  overflow that makes the running result smaller (`ThreeHundredIsFortyFour`, `AcceptedIsExactIff`,
  `AcceptedNumbers`).
- The line wrapper drops a last line that consists of one visible character, because the first
  character of a new line is not looked at (`OneCharacterLineIsLost`, `NothingVisibleIsLostIff`).
- The boundary passes leave some parity sum non-zero for odd sizes (`OddRowsFail`, `OddColumnsFail`,
  `HomogeneousForAllInputs`).
- The histogram kernel misses bins when a group has fewer threads than bins (`OneThreadMissesOne`,
  `SmallGroupsNeedSmallInputs`).

## Model

| member | source | states |
|---|---|---|
| GaussElimination.Sysslv | chebyshev_pseudospectral/src/unit_tests.cpp:31-65 | a returned `b` is the one and only vector that solves the original system, for every size; the singularity error is raised exactly when the original matrix maps a non-zero vector to zero |
| GaussElimination.StepKeepsSolutions | chebyshev_pseudospectral/src/unit_tests.cpp:48-60 | the row swap, the scaling of the pivot row and the eliminations of one column keep exactly the same kernel of the augmented matrix, so exactly the same solutions |
| GaussElimination.NoPivotSingular | chebyshev_pseudospectral/src/unit_tests.cpp:45-47 | a column without pivot below unit upper triangular columns gives a non-zero kernel vector of the original matrix |
| GaussElimination.NonsingularSolvable | chebyshev_pseudospectral/src/unit_tests.cpp:31-65 | a matrix that is not singular can be solved for every right-hand side |
| GaussElimination.BackSubstitute | chebyshev_pseudospectral/src/unit_tests.cpp:62-64 | the last loop turns the right-hand side of a unit upper triangular system into the only vector that meets all its rows |
| Sylvester.LhsSplits | chebyshev_pseudospectral/src/BartelsStewart.cpp:265-281 | at a cell of a diagonal block, A Y + Y B only involves the cells already final and the cells of the block |
| SmallSystems.SystemIsBlock | chebyshev_pseudospectral/src/BartelsStewart.cpp:282-349 | the local 4 x 4, 2 x 2 and 1 x 1 systems say exactly what A Y + Y B = C says on the block |
| SmallSystems.SolveBlock | chebyshev_pseudospectral/src/BartelsStewart.cpp:282-355 | one block step, through any of the four size combinations, leaves the unique solution of the block and changes no other cell, or reports a singular block |
| SylvesterSingularity.SingularBlockSingular | chebyshev_pseudospectral/src/BartelsStewart.cpp:350-353 | one singular diagonal block makes the whole equation A Y + Y B = 0 solvable by a non-zero Y |
| SylvesterSingularity.UniqueNotSingular | chebyshev_pseudospectral/src/BartelsStewart.cpp:253-360 | an equation with a unique solution has no non-zero kernel |
| ShrSlv.Shrslv | chebyshev_pseudospectral/src/BartelsStewart.cpp:253-360 | for every lower quasi-triangular A and upper quasi-triangular B: on success `c` holds the one and only Y with A Y + Y B = old C; it fails exactly when the equation is singular |
| ShrSlv.SolveColumns | chebyshev_pseudospectral/src/BartelsStewart.cpp:271-357 | all row blocks of one column block, cursor and all |
| Conjugation.SolutionsCorrespond | chebyshev_pseudospectral/src/BartelsStewart.cpp:384-405 | X solves (UAU')X + X(VBV') = C exactly when U'XV solves A Y + Y B = U'CV, for orthogonal U and V |
| Conjugation.SingularCorrespond | chebyshev_pseudospectral/src/BartelsStewart.cpp:407 | the equation in the original basis is singular exactly when the quasi-triangular one is |
| Conjugation.OnlySolutionCorrespond | chebyshev_pseudospectral/src/BartelsStewart.cpp:409-430 | the unique solution carried back through U and V is the unique solution in the original basis |
| BartelsStewart.BsSolve | chebyshev_pseudospectral/src/BartelsStewart.cpp:374-431 | on success `rslt` is the one and only X with (UAU')X + X(VBV') = -C, whatever the scratch column of `a` and scratch row of `b` held; `a` and `b` keep their active blocks; it fails exactly when that equation is singular; `u`/`v` and `c`/`rslt` may be one array |
| BartelsStewart.BsSolveSquare | chebyshev_pseudospectral/src/BartelsStewart.cpp:362-372 | the square overload: with D = U T U', the one and only X with D'X + X D = -C |
| HouseholderStep.StepConjugates | chebyshev_pseudospectral/src/BartelsStewart.cpp:51-64 | the column loop and the row loop of one step turn the logical matrix L into P L P for the reflection P of the step |
| Reflections.ReflectionOrthogonal | chebyshev_pseudospectral/src/BartelsStewart.cpp:47-50 | I - 2vv'/v'v is orthogonal and symmetric |
| HouseholderSpec.ReducedStep | chebyshev_pseudospectral/src/BartelsStewart.cpp:38-66 | what the loop keeps: the logical matrix is U'AU for the product U of the reflections so far |
| Householder.MakeVector | chebyshev_pseudospectral/src/BartelsStewart.cpp:39-50 | the vector, divisor and subdiagonal entry of a step: the reflection carries the column to a multiple of the first unit vector; each division is by a non-zero number |
| Householder.Hshldr | chebyshev_pseudospectral/src/BartelsStewart.cpp:33-68 | the stored array describes an orthogonal U, the product of the stored reflections, with U'AU upper Hessenberg and equal to the stored upper triangle and subdiagonal column |
| Householder.Bckmlt | chebyshev_pseudospectral/src/BartelsStewart.cpp:73-95 | `u` becomes the product of the stored reflections, also when `a` and `u` are one array |
| Householder.HessenbergForm | chebyshev_pseudospectral/src/BartelsStewart.cpp:205-213 | the two together with the copied subdiagonal: `u` orthogonal, U'AU upper Hessenberg, `a` holds it |
| MatrixEquation.InitAu | chebyshev_pseudospectral/src/BartelsStewart.cpp:205-218 | the reduction of a full matrix, with the result of `schur` as hypothesis: `u` orthogonal and the stored quasi-triangular T with U T U' the old matrix, whatever the array holds below |
| MatrixEquation.InitAbuv | chebyshev_pseudospectral/src/BartelsStewart.cpp:220-251 | both reductions, the first matrix transposed in place |
| MatrixEquation.SolveEquation | chebyshev_pseudospectral/src/BartelsStewart.cpp:220-431 | reduction and solver together: `rslt` is the one and only X with A'X + X B = -C for the matrices as they were, or the equation is singular, or `schur` failed |
| MatrixEquation.SolveSquareEquation | chebyshev_pseudospectral/src/BartelsStewart.cpp:205-372 | the square case: the one and only X with A'X + X A = -C |
| SpectralDifferentiation.SpectralDifferentiate | chebyshev_pseudospectral/src/ChebyshevDifferentiate.cpp:91-108 | the in-place backward loop leaves coefficients that meet the derivative recurrence, source and target row distinct or the same; nothing else of the target changes |
| Chebyshev.SeriesDifferentiated | chebyshev_pseudospectral/src/ChebyshevDifferentiate.cpp:91-108 | coefficients that meet the recurrence are those of span times the derivative, compared power by power |
| Chebyshev.DifferentiatedAt | chebyshev_pseudospectral/src/ChebyshevDifferentiate.cpp:91-108 | at every x the new series has the value span times the derivative of the old one |
| Chebyshev.DerivativeOfT | chebyshev_pseudospectral/src/ChebyshevDifferentiate.cpp:91-108 | the derivative of T_k is k U_(k-1), for every k |
| Chebyshev.TValueIsTAt | chebyshev_pseudospectral/src/ChebyshevDifferentiate.cpp:110-117 | the power coefficients of T_k are those of the polynomial that the three-term recurrence defines |
| SpectralDifferentiation.RecurrenceUnique | chebyshev_pseudospectral/src/ChebyshevDifferentiate.cpp:99-107 | the recurrence determines the result: the code can leave only one coefficient vector |
| BoundaryConditions.HomogeneousBoundary | chebyshev_pseudospectral/src/ChebyshevDifferentiate.cpp:126-170 | the four dependent passes compute the function `Homogenized`, `in` and `out` distinct or the same |
| BoundaryTheorems.ResultHomogeneous | chebyshev_pseudospectral/src/ChebyshevDifferentiate.cpp:117-170 | for even sizes every even-index and odd-index sum of every row and column of the result is zero, the corner rows and columns included; the free coefficients are unchanged |
| BoundaryTheorems.HomogeneousForAllInputs | chebyshev_pseudospectral/src/ChebyshevDifferentiate.cpp:126-170 | the boundary conditions are met for all inputs if and only if both sizes are even |
| BoundaryTheorems.OddRowsFail | chebyshev_pseudospectral/src/ChebyshevDifferentiate.cpp:145-153 | with an odd m a single coefficient breaks column 0 |
| BoundaryTheorems.OddColumnsFail | chebyshev_pseudospectral/src/ChebyshevDifferentiate.cpp:135-143 | with an odd n a single coefficient breaks row 0 |
| BoundaryTheorems.FixedPoints | chebyshev_pseudospectral/src/ChebyshevDifferentiate.cpp:126-170 | the fixed points are exactly the homogeneous matrices |
| BoundaryTheorems.Idempotent | chebyshev_pseudospectral/src/ChebyshevDifferentiate.cpp:126-170 | a second application changes nothing |
| BoundaryTheorems.HomogeneousVanishes | chebyshev_pseudospectral/src/ChebyshevDifferentiate.cpp:117-125 | zero parity sums say exactly that the series of every row and of every column vanishes at 1 and at -1 |
| BoundaryTheorems.EdgesVanish | chebyshev_pseudospectral/src/ChebyshevDifferentiate.cpp:117-125 | then the double series vanishes on all four edges: at y = 1 and y = -1 for every x, at x = 1 and x = -1 for every y |
| BoundaryTheorems.BoundaryIsHomogeneous | chebyshev_pseudospectral/src/ChebyshevDifferentiate.cpp:126-170 | so for even sizes the series of the result of the four passes vanishes on the whole boundary, whatever the input |
| Chebyshev.EndPoints | chebyshev_pseudospectral/src/ChebyshevDifferentiate.cpp:117 | the values of a series at 1 and -1 are the sum and the difference of its parity sums |
| SecondDerivative.SecondDerivative | chebyshev_pseudospectral/src/ChebyshevDifferentiate.cpp:172-181 | every row of the result is differentiated twice from the homogenized input |
| SecondDerivative.TwiceIsSecondDerivative | chebyshev_pseudospectral/src/ChebyshevDifferentiate.cpp:172-181 | two differentiations give the second derivative, coefficient by coefficient |
| Powers.RevInvolution | chebyshev_pseudospectral/src/FastCosineTransform.cpp:82-94 | reversing b bits twice gives the number back |
| Powers.RevBits | chebyshev_pseudospectral/src/FastCosineTransform.cpp:82-94 | bit i of the reversal is bit b - 1 - i of the number |
| BitReversal.AddReversedCounts | chebyshev_pseudospectral/src/FastCosineTransform.cpp:88-93 | adding one to the reversed counter gives the reversal of the next number |
| BitReversal.NextCounter | chebyshev_pseudospectral/src/FastCosineTransform.cpp:88-93 | the inner loop adds one to the reversed counter j = 1 + 2 rev(p) |
| BitReversal.Reorder | chebyshev_pseudospectral/src/FastCosineTransform.cpp:82-94 | for every n = 2^k, k >= 1: complex slot p ends with the old slot rev(p); `data[n]` is untouched |
| BitReversal.TwiceIsNothing | chebyshev_pseudospectral/src/FastCosineTransform.cpp:82-94 | the reordering is its own inverse |
| Complexes.EvenAndOdd | chebyshev_pseudospectral/src/FastCosineTransform.cpp:104-112 | a polynomial at x is its even part at the square of x plus x times its odd part there, for any number of terms |
| FourierValues.HalfTurn | chebyshev_pseudospectral/src/FastCosineTransform.cpp:98-102 | with exact sines the root of unity of a stage, raised to the number of its butterflies, is -1 |
| FourierValues.ValuePair | chebyshev_pseudospectral/src/FastCosineTransform.cpp:104-112 | two partial transforms of one size make two coefficients of the transform of twice the size, with one twiddle factor and opposite signs |
| Butterflies.PairsApart | chebyshev_pseudospectral/src/FastCosineTransform.cpp:103-112 | different butterflies of a stage use different slots, so the order in which the loops run them does not matter |
| Butterflies.RunStage | chebyshev_pseudospectral/src/FastCosineTransform.cpp:97-116 | one stage, with its twiddle recurrence, turns all partial transforms of one size into those of twice the size, in place |
| Butterflies.FourierTransform | chebyshev_pseudospectral/src/FastCosineTransform.cpp:82-117 | the reordering and the stages leave in complex slot k the discrete Fourier coefficient k of the old slots, for every n = 2^k; `data[n]` is untouched |
| CosineSums.FoldedCosines | chebyshev_pseudospectral/src/FastCosineTransform.cpp:72-81 | the folded sequence has the same cosine sums over whole turns as the data |
| CosineSums.FoldedSines | chebyshev_pseudospectral/src/FastCosineTransform.cpp:72-81 | and its sine sums are the differences of neighbouring odd cosine sums of the data |
| FastCosineTransform.Fold | chebyshev_pseudospectral/src/FastCosineTransform.cpp:67-81 | the loop before the reordering folds the data in place, and its running sum is the cosine sum of index 1 |
| RealTransforms.UnfoldedPair | chebyshev_pseudospectral/src/FastCosineTransform.cpp:125-137 | the transform of n reals at the points k and n/2 - k out of two entries of the packed transform of half the length |
| FastCosineTransform.Unfold | chebyshev_pseudospectral/src/FastCosineTransform.cpp:118-137 | the loop after the butterflies turns the packed transform into the transform of the n reals in place, the middle slot that is its own partner included |
| FastCosineTransform.RunningSums | chebyshev_pseudospectral/src/FastCosineTransform.cpp:138-142 | the running sums turn the imaginary parts into the odd cosine sums, in the odd entries |
| FastCosineTransform.Cosfft1 | chebyshev_pseudospectral/src/FastCosineTransform.cpp:45-158 | for every n = 2^k, k >= 1, the whole in-place transform leaves in every entry k the sum over j <= n of f[j] cos(pi j k / n); in inverse mode, that sum with the ends of the data halved, times 2/n, the ends of the result halved |
| CosineRoundTrip.WavesOrthogonal | chebyshev_pseudospectral/src/FastCosineTransform.cpp:149-157 | the cosine waves are orthogonal with the ends halved |
| CosineRoundTrip.InverseOfForward | chebyshev_pseudospectral/src/FastCosineTransform.cpp:45-158 | forward and then inverse gives the data back |
| CosineRoundTrip.ForwardOfInverse | chebyshev_pseudospectral/src/FastCosineTransform.cpp:45-158 | inverse and then forward gives the data back |
| Angles.LawsAreEnough | chebyshev_pseudospectral/src/FastCosineTransform.cpp:67-69 | any sine and cosine that obey the addition theorem, lie on the unit circle and are right at 0 and pi are exact in the sense assumed |
| Angles.EntryIsSeries | chebyshev_pseudospectral/src/FastCosineTransform.cpp:45-158 | with them entry k is literally the sum of f[j] cos(j k pi / n) |
| PlaneTransforms.Cft2 | chebyshev_pseudospectral/src/FastCosineTransform.cpp:160-174 | every row and then every column is transformed by `cosfft1` |
| PlaneSeries.PlaneEntry | chebyshev_pseudospectral/src/FastCosineTransform.cpp:160-174 | entry (i, k) of the forward transform is the double sum of a[p][q] cos(i p pi / m) cos(k q pi / n) |
| PlaneTransforms.RowMatrix.Cft2WithTranspose | chebyshev_pseudospectral/src/FastCosineTransform.cpp:179-199 | the transposing version leaves the same matrix, also when it is not square |
| PlaneTransforms.RowMatrix.TransposeInPlace | chebyshev_pseudospectral/src/FastCosineTransform.cpp:189 | the transpose in place changes the shape and exchanges rows and columns |
| PlaneRoundTrip.PlaneInverseOfForward | chebyshev_pseudospectral/src/FastCosineTransform.cpp:160-199 | the inverse two-dimensional transform undoes the forward one, for every matrix |
| PlaneRoundTrip.PlaneForwardOfInverse | chebyshev_pseudospectral/src/FastCosineTransform.cpp:160-199 | and the forward the inverse one |
| LockFreeStackProof.RunsLinearizable | parallel_ds_and_algos/parallel_ds/stack_lock_free.hpp:33-53 | every run of any number of threads is linearizable to a sequential stack at its successful exchanges (an empty pop at its load); the list behind `head` is acyclic and holds what that stack holds |
| LockFreeStackProof.RunInv | parallel_ds_and_algos/parallel_ds/stack_lock_free.hpp:33-53 | the invariant of every reachable state: list, private nodes, taken nodes, log |
| LockFreeStackProof.DecidedSince | parallel_ds_and_algos/parallel_ds/stack_lock_free.hpp:33-53 | each operation commits exactly once, after its invocation and before its return, with the outcome it returns |
| LockFreeStackProof.RunsConserve | parallel_ds_and_algos/parallel_ds/stack_lock_free.hpp:33-53 | pushed values = popped values plus those on the list |
| LockFreeStackRuns.FailureMeansProgress | parallel_ds_and_algos/parallel_ds/stack_lock_free.hpp:39-48 | at every point of every run where the exchange of a thread must fail, another thread has made a successful exchange since this thread last loaded `head` |
| LockFreeStackRuns.ExpectsTheLoaded | parallel_ds_and_algos/parallel_ds/stack_lock_free.hpp:38-47 | what a thread compares `head` with is what `head` was at its last load in the run |
| LockFreeStackProof.OnlyExchangesAdvance | parallel_ds_and_algos/parallel_ds/stack_lock_free.hpp:39-48 | the count of successful exchanges grows only by one, and only at such an exchange |
| LockFreeStackRuns.ThrowsOnlyOnNull | parallel_ds_and_algos/parallel_ds/stack_lock_free.hpp:45-49 | when "empty stack" is raised, `head` was null in a state of the run between the invocation of this pop and the raise, at its own load |
| LockFreeStackProof.DeletesOnce | parallel_ds_and_algos/parallel_ds/stack_lock_free.hpp:50-52 | no node is deleted twice, and none while it is on the list |
| LockFreeStackProgress.PushCanSucceed | parallel_ds_and_algos/parallel_ds/stack_lock_free.hpp:39 | as long as `head` is what a push expects, its exchange can succeed; it sets `head` to the node and leaves the heap alone |
| LockFreeStackProgress.PopCanSucceed | parallel_ds_and_algos/parallel_ds/stack_lock_free.hpp:47-48 | the same for the exchange of a pop, which moves `head` on to the link of the node |
| LockFreeStackProgress.AloneFinishes | parallel_ds_and_algos/parallel_ds/stack_lock_free.hpp:33-53 | from every state of every run any thread can finish its operation in at most six steps of its own, whatever the others are in the middle of |
| BoundedBufferTheorems.FirstInFirstOut | c++new-features/producer_consumer.cpp:26-44 | the records of a run: removed values followed by the buffer are the added values in order; never more than 128 items |
| BoundedBufferItems.NthTakesNth | c++new-features/producer_consumer.cpp:26-44 | in every state of every run the n-th remover to take holds the item that the n-th adder to put was started with, and that adder came before; told by the workers of the first and the last state |
| BoundedBufferItems.NthIsUnique | c++new-features/producer_consumer.cpp:26-44 | the n-th worker of a role to change the deque is one worker in one step |
| BoundedBufferItems.RemoversHoldAddedItems | c++new-features/producer_consumer.cpp:35-44 | every remover past its change holds the item of one adder, the one of its number |
| BoundedBufferTheorems.SleepersHaveReason | c++new-features/producer_consumer.cpp:29-38 | no lost wakeup: with no notification pending, a sleeping remover means an empty buffer and a sleeping adder a full one |
| BoundedBufferTheorems.StuckIsDone | c++new-features/producer_consumer.cpp:88-102 | a run that cannot go on has finished all workers if and only if removers <= adders <= removers + 128; in particular with equally many of each |
| BoundedBufferProgress.CanFinish | c++new-features/producer_consumer.cpp:88-102 | every run of a balanced set of workers has a continuation in which all finish |
| BoundedBufferProgress.RunsExist | c++new-features/producer_consumer.cpp:88-102 | any balanced set of workers can be run to its end |
| BoundedBufferTheorems.RunsEnd | c++new-features/producer_consumer.cpp:26-44 | without spurious wakeups every step uses up a measure |
| BoundedBufferTheorems.RunsAreBounded | c++new-features/producer_consumer.cpp:88-102 | so a run of w single-shot workers has at most w(2w + 6) steps |
| BoundedBuffer.NextInv | c++new-features/producer_consumer.cpp:26-44 | every step, spurious wakeups included, keeps the invariant |
| Histogram.HistogramCPU | oneapi/histogram.dp.cpp:115-120 | each bin gains the number of inputs equal to it, modulo 2^32 |
| Histogram.TallyMeans | oneapi/histogram.dp.cpp:115-120 | in plain numbers: 256 bins; each gains as often as its number occurs, modulo 2^32, and exactly so while the sum is below 2^32 |
| StrideCounts.ThreadsShareTheWork | oneapi/histogram.dp.cpp:129-130 | the grid-stride loops of all threads together count each index below n exactly once |
| StrideCounts.StrideTurn | oneapi/histogram.dp.cpp:166-170 | one turn of a thread's loop accounts for exactly the index under its cursor |
| HistogramProof.StepKeeps | oneapi/histogram.dp.cpp:144-194 | every step of every thread keeps the invariant over group memory, barriers and result |
| HistogramProof.KernelCounts | oneapi/histogram.dp.cpp:144-194 | when all threads are done, each bin some thread of a group stands for has gained its count, each other bin nothing, for any number of groups, any group size and any garbage in the group memory |
| HistogramProof.KernelIsOnePass | oneapi/histogram.dp.cpp:144-194 | with groups of at least NUM_BINS threads every interleaving leaves what `histogramCPU` leaves |
| HistogramProof.SmallGroupsNeedSmallInputs | oneapi/histogram.dp.cpp:154-182 | in general it does so if and only if every bin beyond the group size counts a multiple of 2^32 |
| HistogramProof.OneThreadMissesOne | oneapi/histogram.dp.cpp:154-182 | an input for which it does not: one group of one thread and the single value 1, in every finished run |
| HistogramProgress.NeverStuck | oneapi/histogram.dp.cpp:164-179 | the barriers never deadlock: unless all threads are done some thread can step |
| HistogramProgress.RunsAreBounded | oneapi/histogram.dp.cpp:144-194 | every run is finite, with an explicit bound |
| HistogramProgress.CanFinish | oneapi/histogram.dp.cpp:144-194 | every run has a continuation in which all threads finish |
| HistogramProgress.RunsExist | oneapi/histogram.dp.cpp:144-194 | for any groups, input, bins and group memory there is a finished run |
| HistogramProgress.OneThreadRunMissesOne | oneapi/histogram.dp.cpp:154-182 | a finished run of one thread on the value 1 whose result is not that of one pass |
| HistogramGlobal.GlobalKernelIsOnePass | oneapi/histogram.dp.cpp:122-142 | every interleaving of the global-memory kernel leaves what `histogramCPU` leaves |
| HistogramGlobal.GlobalCanFinish | oneapi/histogram.dp.cpp:122-142 | every run of the global kernel has a continuation in which all threads leave the loop |
| HistogramGlobal.GlobalRunsExist | oneapi/histogram.dp.cpp:122-142 | for any input and bins there is a finished run of the global kernel |
| Recency.MatrixIsHistory | lru/cache.hpp:82-86 | after any sequence of touches from the zero matrix, bit [i][j] is set iff i was touched and j's last touch is older or absent |
| Recency.ZeroRowExists | lru/cache.hpp:88-94 | a zero row always exists |
| Recency.FirstZeroRow | lru/cache.hpp:88-94 | the first zero row is the lowest never-touched way, else the way with the oldest last touch, and only it is |
| SetAssociativeCache.CacheSet.SetMru | lru/cache.hpp:82-86 | the in-place update refreshes the matrix and keeps it in agreement with the history |
| SetAssociativeCache.CacheSet.GetLru | lru/cache.hpp:88-94 | returns the least recent way |
| SetAssociativeCache.CacheSet.FindWay | lru/cache.hpp:67-80 | a hit touches the first matching way; a miss invalidates the least recent line and leaves the matrix alone |
| SetAssociativeCache.Cache.constructor | lru/cache.cpp:44-56 | all lines invalid, all matrices zero, all storage new |
| SetAssociativeCache.Cache.Fill | lru/cache.cpp:121-134 | changes the one set the address selects, by `CacheModel.SameSet` and `FirstAddresses` the address modulo the number of sets; a hit keeps the old data |
| SetAssociativeCache.Cache.Lookup | lru/cache.cpp:136-150 | hits iff the key of the address is in the cache's contents; a miss drops the victim; without sets it is a miss |
| CacheModel.SliceBits | lru/bitops.hpp:57-63 | the tag is exactly the bits of the address from LSB on, span of them |
| CacheModel.SameKey | lru/cache.cpp:116-150 | two addresses share a key iff the number of sets, if there are any, divides their difference and the bits of the tag agree |
| CacheModel.SameSet | lru/cache.cpp:113-118 | two addresses go to one set iff the number of sets divides their difference |
| CacheModel.FirstAddresses | lru/cache.cpp:113-118 | each address below the number of sets goes to the set of that number |
| CacheModel.SetBits | lru/cache.cpp:113-118 | for 2^k sets the bits of the set number are the k lowest bits of the address |
| CacheTheorems.CacheIsMap | lru/cache.cpp:121-150 | each operation is the same operation on a plain map keyed by set and tag, minus the one key that a miss or an evict gives up |
| CacheTheorems.NoDuplicates | lru/cache.hpp:67-80 | over every run no set holds two valid lines with one tag |
| CacheTheorems.RunsExist | lru/cache.cpp:121-150 | every sequence of calls that the code accepts has its run |
| CacheTheorems.DataOfLastInsertion | lru/cache.cpp:121-134 | over every run a present key holds the data of the fill that last inserted it, and has been present ever since |
| CacheTheorems.NoHitsNoTouches | lru/cache.hpp:62-94 | misses never change the recency of a set |
| CacheTheorems.MissesStrikeOneWay | lru/cache.hpp:77-79 | between two hits in a set all misses strike one and the same way; every other way keeps its line until it is evicted |
| CacheTheorems.HitLineSurvives | lru/cache.hpp:67-94 | a line that was hit survives, absent an evict, until each of the other ways has been hit after it |
| CacheTheorems.NoHitsOneLine | lru/cache.hpp:62-80 | without hits a set never holds more than its way 0, however many addresses are filled |
| BitOps.Log2 | lru/bitops.hpp:76-84 | throws exactly for words that are neither zero nor a power of two; for a power of two 2 to the result is the word, for zero the result is 31 |
| BitOps.Log2Long | lru/bitops.hpp:86-95 | the same for 64 bits, with 63 for zero |
| BitOps.Bitrev16 | lru/bitops.hpp:97-103 | bit i of the result is bit 15 - i of the word |
| BitOps.Bitrev32 | lru/bitops.hpp:105-112 | bit i of the result is bit 31 - i of the word |
| SharedMemoryVm.Vm.constructor | simple-vm/vm.cpp:44-62 | a loaded image: the image, zeros up to the stack pointer, an empty stack |
| SharedMemoryVm.Vm.Unary | simple-vm/vm.cpp:90-157 | leaves what `UnaryStep` leaves, undefined behaviour reported where it begins; what that is for each instruction is `VmInstructions.UnaryInstructions` |
| SharedMemoryVm.Vm.Binary | simple-vm/vm.cpp:159-178 | leaves what `BinaryStep` leaves, operands in the order b, a, undefined behaviour reported; what that is for each operation is `VmInstructions.BinaryInstructions` |
| VmInstructions.FieldsAre | simple-vm/vm.hpp:77-86 | the layout of a word: 24 bits of operand, 7 of operation code, the highest bit for binary operations, one reading for every word |
| VmInstructions.BinaryInstructions | simple-vm/vm.cpp:159-178 | for each operation code 0 to 8 on the shared array: when it is defined, and the law of the word r that replaces a below b: r = a + b, r + b = a, r = a b, a - r b smaller than b with the sign of a, each bit of r from the bits of a and b, r one or zero by the comparison; nothing else changes |
| VmInstructions.UnaryInstructions | simple-vm/vm.cpp:90-157 | for each operation code 0 to 10: when it is defined, and what it leaves in memory, registers, input and output, cell by cell |
| VmInstructions.FetchesInside | simple-vm/vm.cpp:70-87 | a step is defined only with the instruction pointer inside the memory, and then it executes the word there by its fields |
| SharedMemoryVm.Vm.Interprete | simple-vm/vm.cpp:64-88 | the interpreter loop, for every run that ends: it leaves the machine halted as the run of machine steps does, or stops where that run leaves the defined behaviour |
| SharedMemoryVm.Vm.InterpretePart | simple-vm/vm.cpp:64-88 | the first turns of the loop, for every run and every number of turns |
| StackMachine.StepSim | simple-vm/vm.cpp:70-87 | one step of the machine with separate code, static data and list stack is one step of the shared array |
| ConfinedRuns.StepConfined | simple-vm/vm.cpp:90-178 | the clean machine can make a step exactly when the step of the shared array is defined and confined: code under the instruction pointer, stack above the image, no load from the free room, no store into code or stack |
| ConfinedRuns.ConfinedRunsRefine | simple-vm/vm.cpp:64-178 | every run of the shared array whose steps are confined is matched state by state by a run of the machine with separate parts |
| ConfinedRuns.CleanRunsAreConfined | simple-vm/vm.cpp:64-178 | and every run of the machine with separate parts by a confined run of the shared array |
| StackMachine.Refines | simple-vm/vm.cpp:64-178 | k steps of the clean machine, if it does not fault, are k steps of the shared array |
| StackMachine.LoadedSim | simple-vm/vm.cpp:51-60 | a loaded image starts in step, however it is cut into code and static data |
| StackMachine.CodeIsNeverOverwritten | simple-vm/vm.cpp:121-126 | on such runs the code cells keep their words |
| PostfixCode.RunsToValue | simple-vm/vm.cpp:90-178 | the postfix code of any expression tree pushes exactly the tree's value |
| PostfixCode.SharedMemoryRunsToValue | simple-vm/vm.cpp:90-178 | on the shared array: the value is pushed, the cells from the old stack pointer up and the memory below the free room are unchanged |
| OptionIntegers.IntegerParser | amgcl.starter/src/cxxopts.hpp:861-916 | the loop in modular arithmetic returns the residue of the numeral unless the wrap test, the digit test or the range check stops it; which characters make which numeral is `OptionTexts.SpelledDenotes` |
| OptionTexts.SpelledDenotes | amgcl.starter/src/cxxopts.hpp:872-895 | an optional minus sign, an optional 0x, and digits from 0123456789abcdef or 0123456789ABCDEF in any mix denote the number with these digits |
| OptionTexts.DenotedIsSpelled | amgcl.starter/src/cxxopts.hpp:720-741 | and every text that denotes a number is written so |
| OptionTexts.LimitsAreRange | amgcl.starter/src/cxxopts.hpp:802-841 | the range check lets through exactly the magnitudes of the type |
| OptionIntegers.CheckedNegate | amgcl.starter/src/cxxopts.hpp:844-859 | exactly -u for every magnitude u up to 2^(w-1); refused for unsigned types |
| OptionIntegers.OneMoreDigit | amgcl.starter/src/cxxopts.hpp:897-903 | one turn keeps the running result equal to the numeral modulo 2^w |
| OptionIntegerTheorems.InRangeIsExact | amgcl.starter/src/cxxopts.hpp:861-916 | a numeral in the range of the type, the most negative one included, is read exactly if and only if the type is signed or the text has no minus sign |
| OptionIntegerTheorems.AcceptedNumbers | amgcl.starter/src/cxxopts.hpp:861-916 | which texts are accepted, in terms of the number they denote: at every digit the number so far modulo 2^w is at least its quotient by the base, and the residue is in range for the sign |
| OptionIntegerTheorems.AcceptedIsExactIff | amgcl.starter/src/cxxopts.hpp:897-906 | an accepted text is read exactly if and only if its magnitude is below 2^w |
| OptionIntegerTheorems.LastDigitOverflow | amgcl.starter/src/cxxopts.hpp:899-902 | a number n that overflows only at its last digit passes the wrap test if and only if n mod 2^w >= n / base |
| OptionIntegerTheorems.TrustedLengths | amgcl.starter/src/cxxopts.hpp:897-906 | no text of L digits is ever accepted and read wrongly if and only if base^(L-1) (base - 1) < 2^w |
| OptionIntegerTheorems.ThreeHundredIsFortyFour | amgcl.starter/src/cxxopts.hpp:897-906 | a text that is accepted and read wrongly: an unsigned byte reads 300 as 44 |
| OptionIntegerTheorems.MinusZero | amgcl.starter/src/cxxopts.hpp:908-911 | -0 is 0 for a signed type and refused by an unsigned one |
| DescriptionWrapper.FormatDescription | amgcl.starter/src/cxxopts.hpp:1888-1964 | the loop terminates for every text and every width although its cursor moves back; its output is the rendering of `Lines`, which is spelled out in characters by `DescriptionLayout.OutputIsLayout` |
| DescriptionLayout.OutputIsLayout | amgcl.starter/src/cxxopts.hpp:1888-1964 | the output in characters: each line is cut behind its newlines, or when it is full behind the last space or tab among its first `allowed` characters, or after exactly `allowed` if there is none; each but the first is written behind exactly `start` spaces; the last is dropped only if all behind its first character is spaces and tabs; with no character allowed the lines are those for one, behind an empty line |
| DescriptionLayout.CutsAreUnique | amgcl.starter/src/cxxopts.hpp:1900-1956 | there is only one such way to cut a description |
| DescriptionLayout.LastCut | amgcl.starter/src/cxxopts.hpp:1900-1956 | the last line of `NothingVisibleIsLostIff` begins at the last of these cuts but one |
| DescriptionWrapper.Turn | amgcl.starter/src/cxxopts.hpp:1900-1956 | one turn: the line start moves on, or stays while the cursor does; what is written plus what remains is constant but for the empty first line |
| DescriptionWrapperTheorems.EveryLineFits | amgcl.starter/src/cxxopts.hpp:1900-1956 | no output line has more than `allowed` characters behind its indent; only the first line has none; every line but the last ends in one kind of newline |
| DescriptionWrapperTheorems.OutputIsPrefix | amgcl.starter/src/cxxopts.hpp:1888-1964 | deleting the inserted breaks and indents gives a prefix of the description |
| DescriptionWrapperTheorems.NothingVisibleIsLostIff | amgcl.starter/src/cxxopts.hpp:1949-1962 | that prefix holds everything visible if and only if the last line is not one visible character followed by blanks only |
| DescriptionWrapperTheorems.OneCharacterLineIsLost | amgcl.starter/src/cxxopts.hpp:1909-1962 | a description whose second line never appears |
| Sylvester.NextRowCut | chebyshev_pseudospectral/src/BartelsStewart.cpp:273-275 | the row cursor always stops on a block boundary: the superdiagonal entry it leaves behind is zero |
| Sylvester.NextColCut | chebyshev_pseudospectral/src/BartelsStewart.cpp:262-264 | the same for the column cursor and the subdiagonal of `b` |
| SetAssociativeCache.Cache.Evict | lru/cache.hpp:148-150 | invalidates one line |
| Recency.StrictPartialOrder | lru/cache.hpp:108-110 | the matrix of a history is irreflexive, asymmetric and transitive |
| VmWords.EncodeDecode | simple-vm/vm.hpp:77-86 | encoding the fields of any word gives the word back |
| VmWords.QuotientRoundsToZero | simple-vm/vm.cpp:169 | the remainder of the division is smaller than the divisor and has the sign of the dividend |

## Left out

- Rounding: all linear algebra and Chebyshev arithmetic is over exact reals, so `copysign` on a
  negative zero and overflow are not captured, and where Eigen's `lu().solve` would return
  non-finite numbers for a singular block the model reports the error that `sysslv` raises.
- `schur`: the convergence of a floating-point QR iteration. It is a parameter, and that its result is an
  orthogonal U and a quasi-triangular T with the old product is a hypothesis of `MatrixEquation`.
- Householder.Hshldr: needs n >= 2, because `l <= n-2` is an unsigned comparison in the source;
  the same holds for `Bckmlt` and `HessenbergForm`.
- SpectralDifferentiation.SpectralDifferentiate: needs n >= 3, because the loop starts at the
  unsigned `n-3`.
- BoundaryConditions.HomogeneousBoundary: needs m >= 2 and n >= 2, for the same reason.
- BartelsStewart.BsSolve: the arrays that the source keeps apart must be distinct; only `u`/`v`
  and `c`/`rslt` may coincide, as in the square overload.
- `grid_span`, `PoissonProblem` and `body_ax`: numerics on approximated sines and cosines.
- FastCosineTransform.Cosfft1: sine and pi are taken as exact, so the error that the twiddle recurrence
  accumulates is not captured; sizes are powers of two from 2 on, the sizes the algorithm is for.
- PlaneTransforms.Cft2: a row is copied out and back, where the source passes a view of it; columns are
  copied in the source too.
- Real memory reclamation and weak memory order: the lock-free stack is modelled with sequentially
  consistent steps and an allocator that never reuses an address and leaves deleted nodes readable.
- `Buffer::empty` reads the deque without the lock and is not modelled; thread creation and joining are not either.
- Memory order of the device: each atomic increment, fetch and addition of the histogram is one step, and
  thread numbers are not truncated to `int`.
- SetAssociativeCache.Cache.constructor: accepts any number of sets, where the source throws unless
  the number is a power of two or zero (`BitOps.Log2` says when); the other set hash functions, the
  `way` out-parameter of `lookup`, which is never written, and printing are not modelled.
- SharedMemoryVm.Vm.Interprete: is for runs that end; a run that does not is covered turn by turn by
  `InterpretePart`. Reading the image file is not modelled: the constructor takes the words. Input and
  output characters are sequences.
- Where the virtual machine leaves the defined behaviour of C++ (an index outside the memory, signed
  overflow, division by zero, an unknown operation code) the model stops with `Undefined`.
- Characters of the option parser are ASCII; the wrapper's Unicode mode, tab expansion, the default-value
  suffix, and the rest of the option parser are not modelled.
- Socket, OpenCL and SYCL host code, image and XML samples, string utilities, spin locks and the mesh
  header: foreign calls, wrappers or easy members.
