/** The failure values of the assembler. The source raises an exception and
    aborts at the first one; here each becomes an `Err` that the caller
    propagates with `:-`. */
module Results {

  datatype Error =
    | UnknownRegister(name: string)       // `reg`: name not in the register table
    | InvalidImmediate(token: string)     // `imm`: `int()` could not parse the token
    | UnknownInstruction(mnemonic: string) // `assemble`: no branch of the dispatch matched
    | UndefinedLabel(target: string)      // `assemble`: `self.labels[...]` raised KeyError
    | MissingOperand(index: nat)          // `assemble`: `parts[index]` raised IndexError

  datatype Result<+T> = Ok(value: T) | Err(error: Error) {
    predicate IsFailure() { Err? }

    function PropagateFailure<U>(): Result<U>
      requires Err?
    {
      Err(error)
    }

    function Extract(): T
      requires Ok?
    {
      value
    }
  }

  datatype Option<+T> = None | Some(value: T)
}
