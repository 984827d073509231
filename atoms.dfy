/** The atoms an expression tree is built from: terminals and fixed-arity operators. */
module Atoms {

  /** Terminal atoms. The plain `Terminal` class carries nothing (`Anonymous`); the
      tree's callers also use constants and named variables. */
  datatype TerminalKind = Anonymous | Constant(value: real) | Variable(name: string)

  /** The evaluation procedure an operator stores: the default identity procedure
      (`lambda x: x`) or a named caller-supplied procedure, interpreted by `Semantics`. */
  datatype Procedure = Identity | Named(name: string)

  /** `AtomBase` is the base class `Atom` itself. */
  datatype Atom =
    | AtomBase
    | Terminal(kind: TerminalKind)
    | Operator(arity: nat, procedure: Procedure)
  {
    /** The number of children a node wrapping this atom takes. */
    function Arity(): (r: nat)
      ensures Operator? ==> r == arity
      ensures !Operator? ==> r == 0
    {
      match this
      case AtomBase => 0
      case Terminal(_) => 0
      case Operator(k, _) => k
    }
  }

  type TerminalAtom = a: Atom | a.Terminal? witness Terminal(Anonymous)
  type OperatorAtom = a: Atom | a.Operator? witness Operator(1, Identity)

  /** `Operator(arity, evaluation_procedure=lambda x: x)`. */
  function MakeOperator(arity: nat, procedure: Procedure := Identity): (a: OperatorAtom)
    ensures a.Arity() == arity && a.procedure == procedure
  {
    Operator(arity, procedure)
  }

  /** The base atom and every terminal have arity 0; an operator keeps the arity it was
      made with, and its procedure defaults to the identity. */
  lemma ArityLaws(kind: TerminalKind, arity: nat)
    ensures AtomBase.Arity() == 0
    ensures Terminal(kind).Arity() == 0
    ensures MakeOperator(arity).Arity() == arity
    ensures MakeOperator(arity).procedure == Identity
  {
  }

  /** What the atom operations that are not part of this model mean: the value of a
      terminal that no binding names (`Atom.eval()`), the meaning of a named procedure, and
      the symbolic form `eval_str` builds from an atom and its children's forms. */
  datatype Semantics = Semantics(
    leaf: Atom -> real,
    apply: (string, seq<real>) -> real,
    render: (Atom, seq<string>) -> string)
}
