/** Values the settlement helpers receive from the Solana runtime and the
    Anchor framework: fixed-width integers, public keys, account handles and
    the error type every instruction handler returns. */
module Solana {

  const U64_MAX: int := 0xFFFF_FFFF_FFFF_FFFF

  /** Rust's `u8` and `u64`, as ranges of unbounded integers. */
  type u8 = x: int | 0 <= x < 0x100
  type u64 = x: int | 0 <= x <= U64_MAX

  /** A 32-byte ed25519 public key or program-derived address. */
  type Pubkey = s: seq<bv8> | |s| == 32 witness seq(32, _ => 0)

  /** The program's own error codes used by the helpers (Anchor turns each into
      `ProgramError::Custom`). */
  datatype ErrorCode = IncorrectOwner | Uninitialized | TokenTransferFailed | CreatorNotFound

  /** Custom errors of the SPL token program that a transfer can raise. */
  datatype TokenError = InsufficientFunds | MintMismatch | OwnerMismatch | AccountFrozen | Overflow

  /** Custom errors of the system program that a lamport transfer can raise. */
  datatype SystemError = ResultWithNegativeLamports

  datatype ProgramError =
    | Program(code: ErrorCode)
    | Token(tokenError: TokenError)
    | System(systemError: SystemError)
    | InvalidAccountData
    | IncorrectProgramId
    | MissingRequiredSignature
    | ArithmeticOverflow

  /** Rust's `Result<T, ProgramError>`; `:-` plays the part of `?`. */
  datatype Result<+T> = Ok(value: T) | Err(error: ProgramError) {
    predicate IsFailure() {
      Err?
    }

    function PropagateFailure<U>(): Result<U>
      requires Err?
    {
      Err(error)
    }

    function Extract(): T
      requires Ok?
    {
      value
    }
  }

  /** `ProgramResult` is `Result<(), ProgramError>`. */
  type ProgramResult = Result<()>

  /** How a call ends: it returns a result, or it panics (a Rust panic aborts
      the whole transaction). */
  datatype Completion = Returned(result: ProgramResult) | Panicked

  datatype Option<+T> = None | Some(value: T)

  /** The parts of an `AccountInfo` the helpers read: its address, the program
      that owns it and its raw data. Its lamport balance lives in the ledger. */
  datatype AccountInfo = AccountInfo(key: Pubkey, owner: Pubkey, data: seq<bv8>)
}
