# A verified model of JAX's tutorial core and of parts of jaxlib

This project models, in Dafny, the transformations that the two autodidax tutorials build up, and six
state machines and algorithms of jaxlib, and proves what they are for.

The command `dafny verify dfyconfig.toml` checks all of it.

**Programs and their transformations** (`docs/autodidax.py`). `Jaxprs` is the intermediate representation
with `add`, `mul`, `neg`, `sin`, `cos`, comparisons, nested `xla_call` and `cond`, its typecheck and its
evaluator; `Soundness` relates the two. `Jvp` stages forward mode, and `JvpTyping`, `JvpProof`, `JvpNames`
and `Linearity` say that it succeeds, that it computes with dual numbers, which variables it uses, and
that its result is linear in the tangents. `Expansions`, `Derivatives` and `RegularPoints` say that the
tangents are derivatives of evaluation. `PartialEvaluation` splits a program in two stages;
`PartialEvalProof` says that the stages compute what the program computes, `Residuals` predicts the
residuals, and `PartialEvalTotal` says exactly when there are stages; `Renaming` compares the JVPs of two
Jaxpr objects with the same contents, and `SharedBranches`, `TwinBranches` and `TwinInstance` draw
conclusions for conditionals made from one function. `Transposition` runs a program backwards;
`TransposeProof` and `TransposeTotal` say that this is the adjoint, and when it succeeds. `LinearStages`,
`ReverseMode` and `ReverseModeProof` put these together: `VjpAdjoint` is the adjointness of reverse and
forward mode for all well-typed programs that can be linearized, and `Gradients` concludes that vjp
computes derivatives. `TopologicalSort` and `Tracers` extract a program from a graph of recipes.
`Batching` and `BatchingProof` are `vmap` over arrays of any rank, through calls and conditionals;
`Elementwise` and `Sums` say what it returns, element by element.

The mathematical functions sin and cos are any two functions. Where derivatives are concerned (`SinCos`),
they have first-order expansions at all points with the derivatives cos and -sin and remainders of at most
the square of the step; the real functions have half of this. A failed assertion, a TypeError or a
KeyError is the result `None`. The enumeration order of a Python set is a parameter of which only the
contents are known.

**Nested interpreters** (`docs/autodidax2_part1.py`). `NestedJvp` has the evaluating, the staging and any
chain of JVP interpreters, run through the one mutable current interpreter, and proves that tagged dual
numbers compute in a ring of nested dual numbers at every depth; `StagedJvp` adds the round trip through
the untyped intermediate representation.

**jaxlib.** `Docs`, `Layouts`, `Printer`, `Terminals` and `ColoredOutput` are the pretty printer: the
agenda machine refines a recursive layout, and a simulated terminal (SGR as in section 8.3.117 of ECMA-48)
shows the colours that the document asks for; `Rendering` says what is printed, from the document as a
stream of tokens. `MeshRemap` is the splitting of device meshes. `PjitProtocol` is the compile-once
protocol of jitted calls in every interleaving of threads, `PjitCaching` what its cache is for,
`InputTransfers` the gathering of inputs, and `JitArguments` and `StaticPositions` the signature of a
call. `DlpackLayout` recognises the strides of compact arrays.

## Where the code does not do what it is for

- **vjp pairs the wrong cotangents.** Outputs whose tangent is known are dropped from the linear program
  (docs/autodidax.py:2131-2133), but the caller's cotangents, one for each output, are all handed on,
  and the redefined `map` truncates (docs/autodidax.py:474-475). `VjpFullAdjoint` and
  `VjpNotFullAdjoint` together say when that is harmless: when the dropped outputs come last. For every other
  pattern there is a program with a wrong gradient.
- **Conditionals made from one function.** `make_jaxpr` caches (docs/autodidax.py:1416), so that
  `cond(p, f, f, x)` makes both branches from one jaxpr, with the same variables.
  - `cond` itself raises a TypeError if `f` closes over an array or a tracer, which becomes a leading
    input of both branches, because the binder is then bound twice; and only then (`SameFunction`).
  - With a variable among its operands, linearizing it works if and only if the JVP of `f` can be split and
    the conditionals inside that JVP hand on no residuals (`TracedSameBranches`). The outer branches are two
    Jaxpr objects and get JVPs with different variables, but an inner conditional has the same Jaxpr
    objects in both, and `jvp_jaxpr` is cached (docs/autodidax.py:1779): its residuals are then the same
    variables in both outer branches, and the joined second stages bind them twice. With
    `f = lambda x: cond(x > 0, sin, cos, x)` linearizing fails (`NestedOnInput`); if `f` has
    conditionals inside calls only it works (`FlatSameBranches`).
  - On literals alone the conditional reaches partial evaluation with the shared variables, and
    linearizing fails if and only if the branch has residuals of its own, for example the predicate of
    a conditional in it (`RecordedSameBranches`, `PredicateIsResidual`, `NestedOnLiteral`).
- **`Sparse` never answers false**, contrary to the comment on it: see the row of `Docs.Sparse`.
- **Annotations** of a line after the first are placed behind it without a new line
  (jaxlib/_pretty_printer.cc:632-635), so that only the first ones stand in a column. The model does the same.

## Model

| member | source | states |
|---|---|---|
| `Lists.MergeSelect` | docs/autodidax.py:1981-1988 | merging the two lists of a partition with the same flags gives back the list |
| `Lists.SelectMerge` | docs/autodidax.py:1981-1988 | conversely, whenever a merge succeeds, the partition gives back both lists: nothing is lost or invented |
| `Jaxprs.EvalJaxpr` | docs/autodidax.py:1088-1102 | the environment loop, with nested calls and conditionals, computes the meaning of the jaxpr and fails exactly where the meaning is undefined |
| `Soundness.EvalSound` | docs/autodidax.py:1052-1083 | a jaxpr that typechecks never hits an unbound variable, a second assignment or an operand of a wrong type on arguments of its input types, and its outputs have the announced types; the final environment solves all its equations |
| `Soundness.EvalUnique` | docs/autodidax.py:1088-1102 | evaluation does not depend on the order of execution: any solution of the equations has the values that evaluation gives the outputs |
| `Soundness.Comparisons` | docs/autodidax.py:429-430 | greater and less are the strict order of the numbers and its converse |
| `JvpTyping.JvpTotal` | docs/autodidax.py:1780-1790 | jvp_jaxpr never fails on a well-typed jaxpr; its result typechecks, with the inputs and outputs doubled into primals and tangents |
| `JvpTyping.JvpShape` | docs/autodidax.py:1780-1790 | the staged jaxpr has fresh primal and tangent binders, the traced equations, and the primals followed by the tangents of the outputs |
| `JvpProof.JvpUnarySim` | docs/autodidax.py:531-544 | the staged rules of neg, sin and cos compute on primals and tangents what dual numbers give; that these are derivatives is shown independently (`JvpDerivative`) |
| `JvpProof.JvpMulSim` | docs/autodidax.py:526-529 | the four operations of the rule of mul compute the product rule |
| `JvpProof.CondSim` | docs/autodidax.py:2809-2815 | the rule of cond evaluates the JVP of the branch that the predicate selects |
| `JvpProof.DualSound` | docs/autodidax.py:501-516 | evaluation on dual numbers refines evaluation: its primal parts are the ordinary values, its results are well-typed, and zero tangents stay zero |
| `JvpProof.JvpCorrect` | docs/autodidax.py:1780-1790 | for every well-typed jaxpr with nested calls and conditionals, evaluating the staged JVP on primals and tangents gives what evaluation on dual numbers gives; `JvpDerivative` shows that the second half are the derivatives of the first |
| `Derivatives.EvalNear` | docs/autodidax.py:501-516 | near a point, evaluation that selects the same branches expands to first order, through calls and conditionals: every output is its value plus the step times the tangent, up to a bound, independent of the step, times its square |
| `Derivatives.JvpDerivative` | docs/autodidax.py:1779-1790 | jvp_jaxpr computes directional derivatives: at every point and in every direction there is a bound b such that for all steps h of at most 1 on which evaluation takes the same branches, each output at x + h dx differs from (first half) + h (second half) of the staged JVP by at most b h^2; from the meaning of evaluation alone, and for any sin and cos that have such expansions themselves |
| `Derivatives.StraightPath` | docs/autodidax.py:1779-1790 | without conditionals all evaluations take the same branches, so that this holds for all small steps |
| `RegularPoints.JvpAtRegularPoints` | docs/autodidax.py:2809-2815 | with conditionals it holds for all steps below some distance, at every point where no executed comparison is between equal numbers |
| `Expansions.TangentUnique` | docs/autodidax.py:1779-1790 | such an expansion determines the tangent: there is no other number for which it holds |
| `JvpNames.JvpScope` | docs/autodidax.py:1779-1790 | because jvp_jaxpr is cached, the variables of a staged JVP are those made for the Jaxpr objects that it stages, each with its own, and those of conditionals that meet no input and are taken over; if no object is staged twice as a branch, the staged conditionals share no variables, even if the original ones share all of theirs |
| `JvpNames.JvpBelow` | docs/autodidax.py:1779-1790 | the variables of a staged JVP are below every counter above what is made for its objects, without any hypothesis on sharing |
| `JvpNames.AllocationExists` | docs/autodidax.py:1779-1790 | every program has names with which its objects can be staged once each: the hypothesis of the theorems below can always be met |
| `Renaming.JvpMoves` | docs/autodidax.py:1779-1790 | two Jaxpr objects with the same contents are staged alike, up to a renumbering of the new variables that leaves the branches of conditionals inside, staged once, untouched |
| `Renaming.TwinResiduals` | docs/autodidax.py:2984-3000 | their JVPs therefore hand on the very same residuals of inner conditionals, for any known and unknown inputs |
| `Linearity.JvpLinear` | docs/autodidax.py:1994-2006 | the staged JVP is linear in its tangent inputs, whichever of them are unknown, and its primal outputs never depend on them |
| `Linearity.LinearKnownPreds` | docs/autodidax.py:2984-2988 | in a jaxpr that is linear in its unknown inputs, no predicate of a conditional is unknown |
| `PartialEvaluation.PartialEvalJaxpr` | docs/autodidax.py:2369-2412 | the loop that appends to two equation lists and a residual set, with rules for calls and conditionals, computes the split of the specification, and fails exactly where it is undefined |
| `PartialEvalProof.PartialEvalCorrect` | docs/autodidax.py:2369-2433 | stage one on the known inputs, then stage two on its residuals and the unknown inputs, merged by the unknown-ness of the outputs, is evaluation of the original; for every split of the inputs, every choice of instantiated outputs and every enumeration order of the residual set |
| `PartialEvalProof.EqnsAgree` | docs/autodidax.py:2384-2395 | what the loop keeps: environments of the two stages agree with the original environment on all variables that each stage may read |
| `PartialEvalProof.CallAgree` | docs/autodidax.py:2439-2455 | the two calls that replace a call, linked by fresh residual variables, bind the outputs to the values of the original call |
| `PartialEvalProof.CondPartialEvalCorrect` | docs/autodidax.py:2945-2960 | the split branches, padded with zeros in place of the other residuals, compute what the conditional computes for either value of the predicate |
| `PartialEvalProof.RunSplitBranch` | docs/autodidax.py:2962-2976 | the joined stages of one branch compute what its own stages compute |
| `PartialEvalTotal.PartialEvalReturns` | docs/autodidax.py:2414-2433 | on every well-typed jaxpr, partial_eval_jaxpr returns if and only if every predicate is known and no residual of a conditional would be bound twice, both decided from the jaxpr alone; then both stages typecheck with the matching parts of the type and are single-assignment, the unknown outputs are those that depend on unknown inputs or are asked for, and the residuals are the predicted ones, apart from new variables of calls |
| `PartialEvalTotal.CondTotal` | docs/autodidax.py:2945-2960 | the branches of a conditional are split and joined without a failing assertion, with equal types of both pairs, if and only if each branch can be split and the residuals of neither are bound in the second stage of the other |
| `PartialEvalTotal.EqnsNeed` | docs/autodidax.py:2384-2395 | the converse for the loop: if both stages typecheck, the residuals of conditionals are bound nowhere else |
| `PartialEvalTotal.JoinedSecondStages` | docs/autodidax.py:2766-2774 | second stages with the residuals of both branches as leading inputs typecheck if and only if each is foreign to the residuals of the other |
| `Residuals.ApartNoClash` | docs/autodidax.py:2414-2417 | conditionals that share no variables do not clash, for any known and unknown inputs |
| `Residuals.ResScope` | docs/autodidax.py:2391-2402 | the residuals of a jaxpr are variables of its own or of its conditionals |
| `SharedBranches.CondReturns` | docs/autodidax.py:2752-2774 | cond returns if and only if the functions have the same type and neither binds a constant of the other |
| `SharedBranches.SameFunction` | docs/autodidax.py:2752-2774 | with the same function twice, cond returns if and only if the function closes over nothing that becomes a constant |
| `SharedBranches.SameBranches` | docs/autodidax.py:2945-2960 | a conditional with one jaxpr as both branches, with calls and conditionals inside, is split if and only if the branch itself can be split and has no residuals of its own |
| `SharedBranches.RecordedSameBranches` | docs/autodidax.py:2984-3000 | a conditional on literals only is taken over by the JVP as it is, and is then linearized if and only if its branch has no residuals of its own with everything known |
| `SharedBranches.PredicateIsResidual` | docs/autodidax.py:2984-3000 | a conditional with a variable predicate has this predicate as a residual, whatever is known |
| `SharedBranches.NestedOnLiteral` | docs/autodidax.py:2984-3000 | an instance where linearize fails: both branches are a function with a conditional on its argument, applied to a literal; the program is well-typed and evaluates |
| `TwinBranches.TracedSameBranches` | docs/autodidax.py:2955-3000 | the same conditional with a variable among its operands is linearized if and only if the JVP of its branch can be split and the conditionals inside this JVP hand on no residuals, at any nesting depth: jvp_jaxpr stages the inner branches once, so that both outer branches would hand on the same variables |
| `TwinBranches.TwinClash` | docs/autodidax.py:2955-2974 | the JVPs of two objects with the same contents can be joined as branches if and only if each can be split and the conditionals inside hand on nothing |
| `TwinBranches.FlatSameBranches` | docs/autodidax.py:2809-2815 | in particular it is linearized if conditionals occur in its branch inside calls only, and no object is staged twice there |
| `TwinInstance.NestedOnInput` | docs/autodidax.py:2752-2774 | an instance where it is not: with f = lambda x: cond(x > 0, sin, cos, x), the program cond(p, f, f, a) typechecks and evaluates to the sine or cosine, but linearize fails |
| `Transposition.EvalJaxprTransposed` | docs/autodidax.py:2565-2594 | the backward loop over a cotangent environment computes the specified transposition and fails exactly where it is undefined |
| `TransposeProof.PrimAdjoint` | docs/autodidax.py:2600-2615 | each transpose rule of neg, add and mul is the adjoint of the change of its operation in the linear operands |
| `TransposeProof.BodyAdjoint` | docs/autodidax.py:2622-2637 | transposing a call is the adjoint of the called jaxpr |
| `TransposeProof.EqnsAdjoint` | docs/autodidax.py:2588-2592 | going back over the equations keeps the sum of cotangent times change over the cotangent environment, and leaves cotangents only of variables bound earlier |
| `TransposeProof.TransposeAdjoint` | docs/autodidax.py:2565-2594 | for any two inputs that differ in the linear positions only, the cotangents weigh the change of the outputs as the result weighs the change of the inputs; shared variables, repeated outputs, calls and conditionals included |
| `TransposeTotal.TransposeReturns` | docs/autodidax.py:2565-2594 | eval_jaxpr_transposed returns if and only if every equation is linear in exactly the operands that its rule allows; it then returns one cotangent of the right type for each linear input |
| `LinearStages.LateTransposable` | docs/autodidax.py:2513-2526 | whenever a jaxpr that is linear in its unknown inputs has been split, its second stage can be transposed in these inputs, residuals being known |
| `ReverseModeProof.LinearizeReturns` | docs/autodidax.py:1994-2006 | linearize_flat fails exactly if residuals of the staged JVP clash, which is decided from the jaxpr with its cached JVPs; otherwise it returns the value of the function and a well-typed jaxpr that can be transposed in all its inputs |
| `ReverseModeProof.SeparateSplits` | docs/autodidax.py:1994-2006 | they do not clash if no Jaxpr object is staged twice as a branch and conditionals that meet no input share no variables; different objects may share all their variables |
| `ReverseModeProof.LinearizeCorrect` | docs/autodidax.py:1994-2006 | whenever linearize returns, the linear jaxpr computes the tangents of forward mode that it has kept, and the dropped ones are zero |
| `ReverseModeProof.VjpReturns` | docs/autodidax.py:2513-2526 | after linearize, vjp_flat does not fail: it returns the value of the function and one cotangent of the right type for every input |
| `ReverseModeProof.VjpAdjoint` | docs/autodidax.py:2513-2526 | reverse mode is the adjoint of forward mode: cotangents weigh the tangents of the outputs with unknown tangent exactly as the result weighs the input tangents, for every well-typed program that linearize accepts, every point, tangents and cotangents |
| `Gradients.VjpDerivative` | docs/autodidax.py:2513-2526 | reverse mode computes derivatives: for every program that linearize accepts, every point, cotangents and direction, the weighted sum of the outputs with unknown tangent expands to first order along the direction, and its coefficient is what the result of vjp gives the direction |
| `Gradients.GradDerivative` | docs/autodidax.py:2648-2654 | grad: for one real output and the cotangent 1, the result weighs every direction as the derivative of the output in that direction, with no condition on known tangents |
| `TruncatedCotangents.VjpFullAdjoint` | docs/autodidax.py:2513-2526 | when the outputs with known tangent come last, or there are none, vjp is the adjoint of the whole derivative for one cotangent per output |
| `TruncatedCotangents.VjpNotFullAdjoint` | docs/autodidax.py:474-475 | for every other pattern there are a program, tangents and cotangents with which it is not: known-tangent outputs are dropped and the truncating map pairs the wrong cotangents |
| `TopologicalSort.Toposort` | docs/autodidax.py:2291-2319 | on every finite acyclic graph, with parents and outputs repeated at will, toposort terminates, looks up existing counts only, and lists every node reachable from the outputs exactly once, after all its parents |
| `TopologicalSort.CountChildren` | docs/autodidax.py:2295-2304 | the first loop counts, for every reachable node, its incoming edges and its occurrences as an output |
| `TopologicalSort.CheckToposort` | docs/autodidax.py:2326-2330 | the check holds exactly if every node comes after its parents |
| `TopologicalSort.RemoveDuplicates` | docs/autodidax.py:2322-2324 | the same elements, each once |
| `TopologicalSort.ReversedOk` | docs/autodidax.py:2306-2319 | the reversed order of taking nodes puts parents first |
| `Tracers.TracersToJaxpr` | docs/autodidax.py:2245-2276 | it returns exactly when every reachable lambda-bound tracer is among the inputs; the jaxpr typechecks, has one equation for every reachable recipe and one constant for every reachable constant object, and means what the graph means |
| `Tracers.BuiltMeans` | docs/autodidax.py:2245-2276 | evaluating the jaxpr gives the outputs the values that recursive evaluation of the recipe graph gives them, for all arguments |
| `Tracers.BuiltTyped` | docs/autodidax.py:2272-2276 | the jaxpr has the types of its constants and inputs and of the output tracers |
| `Tracers.VarValue` | docs/autodidax.py:2254-2271 | after evaluation every placed variable has the value of its tracer |
| `BatchingProof.VmapIsMap` | docs/autodidax.py:895-907 | vmap is map, through calls and conditionals at any depth: it returns if and only if the function returns on (any) one row and every operation has a batching rule for what is mapped, and row i of every result is the result on row i of the arguments, wherever the batch dimension has been |
| `BatchingProof.VmapExample` | docs/autodidax.py:1801-1807 | the same for a body that is transformed by vmap_jaxpr, for arguments that stand for any examples |
| `BatchingProof.InstrExample` | docs/autodidax.py:1792-1799 | a batched operation, call or conditional succeeds exactly when it does on an example and has a rule; its results have the results of the example in every row, and call results are batched along axis 0 |
| `BatchingProof.CondExample` | docs/autodidax.py:2827-2839 | a batched conditional transforms both branches and selects by the unmapped predicate; it agrees with the conditional on every row |
| `BatchingProof.BindExample` | docs/autodidax.py:832-840 | one operation through the batching interpreter: it succeeds exactly when the operation does on an example, and its result has that example in every row |
| `BatchingProof.BinopExample` | docs/autodidax.py:863-873 | the rule of add and mul, which gives an unmapped or differently mapped operand the batch axis of the other, fails only if the shapes of the examples differ, and has the operation of the examples in every row; which numbers these are is `VmapArithmetic` |
| `BatchingProof.SumExample` | docs/autodidax.py:882-888 | the rule of reduce_sum shifts the axes past the batch dimension, and the batch dimension moves to where the result has it |
| `BatchingProof.ShiftedSummed` | docs/autodidax.py:882-888 | the shifted axes are the given ones around the batch dimension |
| `BatchingProof.MoveExample` | docs/autodidax.py:784-797 | moving or making a batch axis does not change the examples |
| `BatchingProof.MoveAllExamples` | docs/autodidax.py:904-907 | the outputs are stacked along axis 0 |
| `Elementwise.ProgramElements` | docs/autodidax.py:423-430 | a function of elementwise operations on arrays computes, at every index, what the jaxpr of the same operations computes on the elements there, through calls, and for scalars through conditionals |
| `Elementwise.VmapElements` | docs/autodidax.py:895-907 | element [i] + idx of every result of vmap is what that jaxpr computes on the elements at idx of row i of the arguments, whichever axes they are mapped over |
| `Elementwise.VmapArithmetic` | docs/autodidax.py:863-880 | vmap of add, mul, neg, sin and cos returns, and each element of its result is the sum, product, negative, sine or cosine of the elements of the operands, mapped over any axes or not mapped |
| `Elementwise.VmapBranch` | docs/autodidax.py:2827-2839 | an instance with a conditional and a call: vmap over x of lambda p, x: cond(p, jit(sin), cos, x) returns, with sin or cos of x[i] at i |
| `Sums.IndicesExact` | docs/autodidax.py:428 | the list of indices over which sums are taken has every index within the shape, once |
| `Sums.SumValue` | docs/autodidax.py:428 | reduce_sum: the element at an index is the sum of all elements whose index agrees with it on the dimensions that are kept |
| `Sums.VmapSum` | docs/autodidax.py:882-888 | vmap of reduce_sum returns, and has these sums of row i at [i] + index |
| `Docs.Fits` | jaxlib/_pretty_printer.cc:305-350 | the look-ahead loop, which stops early, answers true exactly if the flat width is within the given width |
| `Docs.Sparse` | jaxlib/_pretty_printer.cc:352-430 | as written it always answers true, because its counter starts at 0 and is only decremented |
| `Layouts.FlatFits` | jaxlib/_pretty_printer.cc:514-550 | a document that is laid out flat and fits goes on one line: every group in it is flat, no line is begun, and the column advances by the flat width, within the line width |
| `Layouts.GroupChoice` | jaxlib/_pretty_printer.cc:542-550 | a group is laid out on one line if and only if it fits there |
| `Layouts.LayoutWidths` | jaxlib/_pretty_printer.cc:514-540 | every line records the number of characters of its spans as its width |
| `Layouts.LayoutLeaves` | jaxlib/_pretty_printer.cc:498-540 | whatever the width and the group choices, the layout has every text leaf once, in document order and in its enclosing colour, and likewise every annotation |
| `Printer.FormatState.FormatText` | jaxlib/_pretty_printer.cc:498-505 | the machine then shows the layout extended by the text |
| `Printer.FormatState.FormatBreak` | jaxlib/_pretty_printer.cc:514-540 | the machine then shows a new line with its indentation, or the text of the break; by how much it is indented is `NewLines` |
| `Printer.FormatState.FormatConcat` | jaxlib/_pretty_printer.cc:507-512 | pushes the children so that the first is on top |
| `Printer.FormatState.FormatGroup` | jaxlib/_pretty_printer.cc:542-550 | pushes the child flat exactly if the group fits in the rest of the line |
| `Printer.FormatState.Step` | jaxlib/_pretty_printer.cc:594-607 | one step of the machine keeps the layout that its state and agenda stand for, and the agenda gets smaller |
| `Printer.FormatState.Finish` | jaxlib/_pretty_printer.cc:608-622 | closes the last line, with the annotation colours if it has annotations |
| `Printer.Format` | jaxlib/_pretty_printer.cc:578-640 | the agenda machine terminates, and its output is the recursive layout, painted if colours are on; `FormatPrints` says what it prints |
| `Printer.PushedLayout` | jaxlib/_pretty_printer.cc:507-512 | pushing the children in reverse order lays them out in order |
| `Terminals.UpdateTerminal` | jaxlib/_pretty_printer.cc:475-492 | a terminal that reads the emitted SGR sequence changes from the tracked colour to the new one and prints nothing |
| `Terminals.CodesSelect` | jaxlib/_pretty_printer.cc:475-492 | the selected codes take the terminal from any colour to any other |
| `Terminals.ReadCodes` | jaxlib/_pretty_printer.cc:475-492 | parsing the printed parameters of a sequence gives back its codes |
| `ColoredOutput.ColorsShown` | jaxlib/_pretty_printer.cc:578-640 | for texts without escape characters, a terminal shows every leaf in its enclosing colour and annotations dim, and is left in the default colour |
| `ColoredOutput.ColorsOnlyColor` | jaxlib/_pretty_printer.cc:578-640 | the characters shown are those of the output without colours |
| `ColoredOutput.WidthsSeen` | jaxlib/_pretty_printer.cc:530-540 | the recorded width of each line is the number of characters shown for it |
| `Rendering.LinesPrinted` | jaxlib/_pretty_printer.cc:514-562 | read as a stream of texts, breaks with the sum of the nestings around them, and group brackets, the document prints exactly the lines of the layout, with their annotations: a break begins a line if and only if the innermost group around it did not fit on the rest of its line, or there is none |
| `Rendering.NewLines` | jaxlib/_pretty_printer.cc:530-534 | every line after the first belongs to a break, in document order, and begins with as many spaces as the nestings around this break add up to |
| `Rendering.FormatPrints` | jaxlib/_pretty_printer.cc:578-640 | without colours Format returns these lines, with their widths and annotations, joined; with colours the same characters |
| `Rendering.FormatLines` | jaxlib/_pretty_printer.cc:623-638 | without annotations the output is the lines with line feeds between them |
| `Rendering.AnnotationColumn` | jaxlib/_pretty_printer.cc:623-636 | the first annotations of all lines stand in one column, behind the longest line |
| `Rendering.TextsAsked` | jaxlib/_pretty_printer.cc:563-576 | every text appears once, in order, and for each of foreground, background and intensity the innermost colour document around it that gives one decides |
| `MeshRemap.GetStrides` | jaxlib/pathways.cc:78-90 | it fails only without axes, and otherwise gives the row-major strides |
| `MeshRemap.PopulateSubmeshOffsets` | jaxlib/pathways.cc:98-118 | the recursive odometer terminates for positive sizes and appends one offset for each remaining coordinate, in row-major order: the k-th coordinate gives k times the last stride |
| `MeshRemap.GetSubmeshOffsets` | jaxlib/pathways.cc:122-136 | one offset for every coordinate of the axes before the split one |
| `MeshRemap.CarryValue` | jaxlib/pathways.cc:109-113 | carrying keeps the number that the odometer stands for |
| `MeshRemap.PopulateRemapMappings` | jaxlib/pathways.cc:146-166 | the intervals of the k-th row: in the mesh from the submesh start on, in the submesh contiguous |
| `MeshRemap.SplitByMeshAxis` | jaxlib/pathways.cc:354-367 | the loop over the sections gives the mappings of all submeshes |
| `MeshRemap.SplitSends` | jaxlib/pathways.cc:146-166 | the mapping of a submesh sends exactly the shards whose coordinate on the split axis lies in the submesh, each to its row-major position there |
| `MeshRemap.SplitPartitions` | jaxlib/pathways.cc:354-367 | every shard of the mesh is sent by exactly one mapping, to exactly one position |
| `MeshRemap.SplitFills` | jaxlib/pathways.cc:354-367 | every position of a submesh receives exactly one shard |
| `MeshRemap.ConcatenateByMeshAxis` | jaxlib/pathways.cc:521-540 | the loops over the inputs and the offsets give the mappings of the split with the two interval lists exchanged |
| `MeshRemap.ConcatenateOne` | jaxlib/pathways.cc:528-540 | the intervals of one input, contiguous in the input and at the submesh start of each row in the mesh |
| `MeshRemap.ConcatenateUndoesSplit` | jaxlib/pathways.cc:521-540 | along the same sections, the split sends shard d to position p of submesh i exactly if the concatenation sends position p of input i to shard d |
| `NestedJvp.Context.Interpret` | docs/autodidax2_part1.py:236-254 | dispatch through the one mutable current interpreter computes the operation under the chain of interpreters, and restores the interpreter on every way out |
| `NestedJvp.Context.Differentiate` | docs/autodidax2_part1.py:239-254 | the rules run under the previous interpreter compute the operation of the JVP interpreter |
| `NestedJvp.Context.Run` | docs/autodidax2_part1.py:267-283 | running a program with nested derivatives computes its meaning under the chain, and restores the interpreter |
| `NestedJvp.Context.Build` | docs/autodidax2_part1.py:443-448 | staging with a new interpreter gives the staged program, and restores the interpreter |
| `NestedJvp.Context.Eval` | docs/autodidax2_part1.py:462-469 | the loop over the equations evaluates the staged program under the current interpreter |
| `NestedJvp.OpMeaning` | docs/autodidax2_part1.py:236-265 | at every depth, an operation on values whose tags are those of the chain succeeds and computes in the ring of nested dual numbers; only numbers reach the evaluating interpreter, only atoms the staging one |
| `NestedJvp.EvaluateMeaning` | docs/autodidax2_part1.py:267-283 | no perturbation confusion: at every nesting depth a program succeeds and means what it denotes, with outer dual numbers as constants of inner interpreters |
| `NestedJvp.DualsDifferentiate` | docs/autodidax2_part1.py:239-254 | over every ring of the tower, dual numbers carry the formal derivative of a polynomial |
| `NestedJvp.FormalMeaning` | docs/autodidax2_part1.py:281-289 | a program with nested derivatives denotes the polynomial in which every derivative is taken formally |
| `NestedJvp.DiffIsDerivative` | docs/autodidax2_part1.py:281-283 | the formal derivative is the derivative: the polynomial at x + h is its value plus h times the formal derivative plus h squared times a remainder |
| `NestedJvp.ProgramCorrect` | docs/autodidax2_part1.py:267-289 | every program with derivatives nested in any way runs without a failing assertion and returns the value of its formal polynomial |
| `NestedJvp.NthOrderDerivativeCorrect` | docs/autodidax2_part1.py:285-289 | nth_order_derivative computes the n-th derivative of every polynomial at every point, for every n |
| `StagedJvp.BuildWellFormed` | docs/autodidax2_part1.py:429-448 | build_jaxpr succeeds; every equation binds a new name and uses earlier ones, and the result denotes what the program denotes |
| `StagedJvp.EquationsMeaning` | docs/autodidax2_part1.py:462-469 | the environment of eval_jaxpr holds what the names stand for |
| `StagedJvp.RoundTrip` | docs/autodidax2_part1.py:471-480 | under every chain of interpreters, evaluating the staged program succeeds and means what running the program means |
| `StagedJvp.StagedProgramCorrect` | docs/autodidax2_part1.py:462-471 | at the top level the staged program computes the formal derivatives |
| `PjitProtocol.StepKeeps` | jaxlib/pjit.cc:696-775 | every step of every thread, failures and evictions included, keeps the protocol invariant |
| `PjitProtocol.RunKeeps` | jaxlib/pjit.cc:696-775 | the invariant holds in every state of every run |
| `PjitProtocol.CompileOnce` | jaxlib/pjit.cc:707-740 | for each entry: it is compiled at most once, by the thread that created it, and only until it is notified; a notified entry is populated or marked for the fall-back; one that is not notified has its creating call at work on it |
| `PjitProtocol.CallsSafe` | jaxlib/pjit.cc:745-775 | no call waits for an entry that its own thread has created, and the fast path is taken only with a notified and fully populated entry |
| `PjitProtocol.NotifiedForever` | jaxlib/pjit.cc:726-743 | once notified, an entry never changes again, even when evicted |
| `PjitProtocol.RecursionDetected` | jaxlib/pjit.cc:746-752 | a thread that asks for an entry which it is compiling itself gets the recursion error: it neither waits nor compiles again |
| `PjitCaching.NewEntryAfterRemoval` | jaxlib/pjit.cc:696-704 | for each signature: between the making of two entries for it there is an eviction of it, or the end of a creating call that removes it |
| `PjitCaching.CompiledOncePerSignature` | jaxlib/pjit.cc:696-740 | hence, while a signature is not removed, at most one entry is made for it, and it is compiled at most once |
| `PjitCaching.SameEntryCached` | jaxlib/pjit.cc:696-704 | as long as a signature is cached, all calls find the same entry |
| `PjitCaching.CachedCall` | jaxlib/pjit.cc:696-775 | a call that begins when a finished entry is cached uses it and never compiles or waits, in any interleaving and even if the entry is evicted; its first step makes it ready, and its second takes the fast path exactly if the entry is not marked for the fall-back |
| `PjitCaching.NeverFast` | jaxlib/pjit.cc:720-735 | when the creating call has got no data for the fast path, or has failed, no call ever takes the fast path with its entry |
| `InputTransfers.PrepareIfrtInputs` | jaxlib/pjit.cc:449-599 | it succeeds exactly when every kept argument can be transferred, and then slot j holds the transfer of the j-th kept argument, for every mix of direct, fall-back and grouped copies |
| `InputTransfers.CopyGroups` | jaxlib/pjit.cc:581-596 | in whatever order the groups are visited, every pending slot gets its copy and no other slot changes its content |
| `InputTransfers.CopyOneGroup` | jaxlib/pjit.cc:586-595 | the copies of one group go to the slots of that group |
| `InputTransfers.FinishCopies` | jaxlib/pjit.cc:581-599 | after the copies every slot is filled, or some argument cannot be transferred |
| `InputTransfers.KeptNext` | jaxlib/pjit.cc:485-491 | the running index of kept arguments is the position among the kept ones |
| `InputTransfers.UsedAsItIs` | jaxlib/pjit.cc:491-577 | an argument cannot fail, whatever happens outside, exactly if it is an array with the number of devices and the layout that the executable wants and is not alone on another device; it is then used as it is |
| `InputTransfers.NeedsPython` | jaxlib/pjit.cc:491-552 | an argument needs the Python fall-back exactly if it is a host value and the executable does not run on one known device or wants a layout, or an array with another number of devices or another layout |
| `InputTransfers.MovedToDevice` | jaxlib/pjit.cc:491-577 | on one device, host values are put there, and arrays that are alone elsewhere are copied there, into the memory of the input |
| `JitArguments.ParseArguments` | jaxlib/jax_jit.cc:303-394 | the loops compute the signature and the flattened dynamic arguments of the specification |
| `JitArguments.ParsePositional` | jaxlib/jax_jit.cc:317-347 | the loops separate static from flattened positional arguments, as the specification does; which positions are static is `StaticPositional` |
| `StaticPositions.StaticPositional` | jaxlib/jax_jit.cc:330-347 | the static positional arguments are exactly those at a position p below n with p or p - n among the static numbers, in order; the others are flattened in order; both stand before what keywords contribute, which is as much as there are keyword names |
| `StaticPositions.NegativesFromEnd` | jaxlib/jax_jit.cc:334 | replacing every negative number t of at least -n by t + n changes neither the signature nor the leaves |
| `StaticPositions.LastStatic` | jaxlib/jax_jit.cc:330-347 | with the static number -1 exactly the last positional argument is static |
| `StaticPositions.StaticKeywords` | jaxlib/jax_jit.cc:375-392 | of the keyword arguments exactly those with a static name are static, with names and values at the same places |
| `JitArguments.SignatureDeterminesCall` | jaxlib/jax_jit.cc:113-140 | signatures and leaves agree if and only if the calls have equally many positional arguments and the same keywords, with identical dynamic and equal static arguments |
| `JitArguments.OrderIndependent` | jaxlib/jax_jit.cc:350-373 | the result does not depend on the order of the keyword arguments |
| `JitArguments.PositionalCount` | jaxlib/jax_jit.cc:317-347 | the number of positional arguments, on which negative static positions depend, can be read off the signature |
| `JitArguments.FlattenAllUnique` | jaxlib/jax_jit.cc:317-347 | a list of structures and the concatenated leaves determine the trees and where the leaves end |
| `JitArguments.SortSorts` | jaxlib/jax_jit.cc:367-373 | sorting keeps the keyword arguments and puts the names in ascending order |
| `JitArguments.DictionaryOrder` | jaxlib/jax_jit.cc:367-371 | names are ordered as in a dictionary |
| `JitArguments.SelectRelated` | jaxlib/jax_jit.cc:330-347 | the static and the dynamic part of an argument list determine the list |
| `DlpackLayout.StridesToLayout` | jaxlib/dlpack.cc:101-130 | for any sizes it accepts exactly the strides that are compact in the sorted order of the dimensions, ignoring those of size 1, and returns this order; for arrays with elements these are the strides that are compact in any order |
| `DlpackLayout.ImportedOrder` | jaxlib/dlpack.cc:359-371 | the caller: tensors without strides or without elements get the row-major order, others the order that is recognised |
| `DlpackLayout.EmptyRejected` | jaxlib/dlpack.cc:101-130 | with a dimension of size 0, strides that are compact in another order can be rejected; the caller excludes this case |
| `DlpackLayout.SortedUnique` | jaxlib/dlpack.cc:107-117 | there is only one sorted order |
| `DlpackLayout.SortByStride` | jaxlib/dlpack.cc:107-117 | a permutation of the dimensions in ascending order of strides, later dimensions first among equals |
| `DlpackLayout.SortedCompact` | jaxlib/dlpack.cc:101-130 | strides that are compact in some order are compact in the sorted order |
| `DlpackLayout.CompactBijection` | jaxlib/dlpack.cc:118-130 | compact strides map the indices one-to-one onto the numbers below the number of elements |
| `DlpackLayout.RowMajorReversed` | jaxlib/dlpack.cc:107-117 | for row-major strides the result is the reversed order of the dimensions, whatever sizes are 1 |

## Left out

Tutorial core:

- ReverseModeProof.SeparateSplits: in one direction, for programs in which an object is staged twice as a branch can still be linearized if it hands on no residuals; the exact condition is `Splittable` in `LinearizeReturns`.
- The cache of `jvp_jaxpr` never forgets: a staged JVP is a function of the Jaxpr object, and the names it starts from are any that keep the objects of a program apart (`Allocation`). Eviction from the least-recently-used cache, after 128 other jaxprs, is not modelled.
- The values of the jaxpr core are scalars of type float64 or bool; shapes, `reduce_sum` and `broadcast` occur in the vmap model only. Arithmetic on booleans is refused by the modelled typecheck, and dtypes and weak types are not modelled.
- Real numbers instead of floating point.
- Tracing Python functions: `make_jaxpr` and trace-level `vjp` and `linearize` are modelled for a function that is one jitted jaxpr, so that the trace-level partial evaluation stages one call; general recipe graphs are the subject of `Tracers`.
- `num_consts`, literals inlined by `_inline_literals`, pytrees of the tutorial, printing of jaxprs, and the lowering to XLA; an `xla_call` means evaluating its program.
- BatchingProof.VmapIsMap: a transformed call or conditional means running vmap on its body; the jaxpr that `vmap_jaxpr` stages for it is not built. Axes of `reduce_sum` are non-negative, operands of `add` and `mul` have equal shapes on each example, and a conditional demands results of equal shapes, as its typecheck does. That sums of boxed unmapped values and mapped predicates have no rule is part of the theorem.
- In `vmap`, an axis of `None` stands for the source's `not_mapped`; its own `None`, for which the set of sizes already fails, is not modelled.
- vmap with no mapped argument or with unequal sizes, which fails in the source when it unpacks the set of sizes: `VmapFlat` gives `None`.

Second tutorial:

- Programs are expressions with `derivative` anywhere; other control flow of Python, and `build_jaxpr` called inside a function that is itself being staged (two staging interpreters would both name their variables from 1), are not modelled. Variable names are numbers.

Printer:

- Source maps, `repr` and negative nesting.
- ColoredOutput.ColorsShown: for texts, annotations and a prefix without the escape character; a text that contains one could itself set a colour.
- Widths count characters; the source counts bytes.

Meshes:

- Array specifications, shapes and shardings of the remap plan, the checks of the arguments before the loops, and integer overflow.

Dispatch:

- PjitProtocol.CompileOnce: safety only. Two threads that compile functions which call each other can wait for each other, as in the source; nothing is claimed about progress.
- The global interpreter lock, the LRU order (eviction may happen at any step) and the checks before the cache look-up. Populating an entry is a fixed number of writes.
- InputTransfers.PrepareIfrtInputs: transfers, copies and the Python fall-back are functions that may fail; which error is returned first, the transfer guard and the objects kept alive are not modelled.
- JitArguments.SignatureDeterminesCall: a pytree is a tree of kinds and leaves, and equality of static arguments is any relation; hashing, interning and reference counts are not modelled. Keyword names are distinct, as Python guarantees, and sorted as code point strings.
- Shardings, layouts, devices and configuration in the call signature.

DLPack:

- DlpackLayout.SortByStride: the body of the sort is not the library's.
- Negative sizes, and the element types, devices and buffers of an imported tensor.
- 64-bit overflow of strides, element types and lanes.

Configuration, guards, profiling and call locations in jaxlib would only add simple members.
