/** Option and Result datatypes, and the exceptions the engine can raise. */
module Wrappers {

  datatype Option<+T> = None | Some(value: T)

  /** Every exception the modelled code raises: its own exception classes, the Python
      built-in errors its expressions can raise, and `Exhausted` for a draw loop that
      the source would keep running forever (see `Generation.FullPopulation`). */
  datatype Error =
    | InvalidDepth                     // InvalidDepthException
    | NodeTermination                  // NodeTerminationException
    | InvalidTerminalSetSize           // InvalidTerminalSetSizeException
    | InvalidOperatorSetSize           // InvalidOperatorSetSizeException
    | InvalidPopulationGenerationMethod
    | InvalidPopulationSize
    | InvalidAggregation               // InvalidAggregationException
    | InvalidTournamentProportion
    | InvalidOperationState            // InvalidOperationStateException
    | UnboundVariable                  // evaluating a Variable that no binding names
    | ZeroDivisionError
    | IndexError                       // random.choice of an empty list
    | ValueError                       // max or argmax of an empty list, random.sample
    | AttributeError                   // a method called on None
    | TypeError                        // a procedure called with the wrong argument count
    | Exhausted                        // the attempt bound of an unbounded loop ran out

  datatype Result<+T> = Ok(value: T) | Err(error: Error)

  /** What a procedure without a return value ends with: normally, or by raising. */
  datatype Outcome = Pass | Fail(error: Error)
}
