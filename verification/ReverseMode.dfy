/** linearize and vjp: forward mode, then partial evaluation, then (for vjp) transposition. */
module ReverseMode {
  import opened Wrappers
  import opened Lists
  import opened Jaxprs
  import opened PartialEvaluation
  import opened Transposition
  import opened Jvp

  /** The primal outputs, the linear jaxpr with its constants, and which of the tangent outputs it
      computes. */
  datatype Linearized = Linearized(outs: seq<Val>, lin: Jaxpr, consts: seq<Val>, unks: seq<bool>)

  /** What tracers_to_jaxpr makes of the one call that was staged: the residuals are constants, the
      tangents are inputs. Without outputs nothing is reachable, and the jaxpr is empty. */
  function Staged(late: Jaxpr, res: seq<Val>, tys: seq<Ty>, next: nat): Jaxpr {
    var binders := FreshVars(TypesOf(res) + tys, next);
    var outs := FreshVars(AtomTys(late.outs), next + |binders|);
    if late.outs == [] then Jaxpr(FreshVars(tys, next), [], [])
    else Jaxpr(binders, [CallEqn(late, Atoms(binders), outs)], Atoms(outs))
  }

  function Consts(late: Jaxpr, res: seq<Val>): seq<Val> {
    if late.outs == [] then [] else res
  }

  /** linearize_flat of the jitted function `j` at `xs`. Tangent outputs that do not depend on the
      tangents are known and are not among the outputs of the linear jaxpr. */
  function LinearizeFlat(m: Math, order: Order, names: Naming, j: Jaxpr, xs: seq<Val>): Option<Linearized> {
    var n := |j.binders|;
    if |xs| != n then None
    else
      var d :- JvpJaxpr(names, j);
      var s :- PartialEval(order, d.jaxpr, Repeat(false, n) + Repeat(true, n), None, names.next);
      var first :- Eval(m, s.known, xs);
      var k, half := |first| - s.numRes, |s.outUnks| / 2;
      if k < half || true in s.outUnks[..half] then None
      else
        Some(Linearized(first[..half], Staged(s.unknown, first[k..], Avals(j.binders), s.next),
                        Consts(s.unknown, first[k..]), s.outUnks[half..]))
  }

  /** consts + [UndefPrimal(p.aval) for p in tangent_pvals_in] */
  function TransposeInputs(consts: seq<Val>, tys: seq<Ty>): (r: seq<Transposition.Primal>)
    ensures |r| == |consts| + |tys|
    ensures forall i :: 0 <= i < |r| ==> r[i] == if i < |consts| then Known(consts[i]) else Undef(tys[i - |consts|])
  {
    seq(|consts| + |tys|, i requires 0 <= i < |consts| + |tys| =>
      if i < |consts| then Known(consts[i]) else Undef(tys[i - |consts|]))
  }

  /** vjp_flat: the primal outputs and, for the cotangents `cts`, those of the inputs. */
  function VjpFlat(m: Math, order: Order, names: Naming, j: Jaxpr, xs: seq<Val>, cts: seq<Val>)
    : Option<(seq<Val>, seq<Val>)>
  {
    var l :- LinearizeFlat(m, order, names, j, xs);
    var grads :- Transpose(l.lin, TransposeInputs(l.consts, Avals(j.binders)), cts);
    Some((l.outs, grads))
  }
}
