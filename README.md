# Candy-machine settlement helpers in Dafny

This project models `rust/nft-candy-machine/src/utils.rs` of the Metaplex candy-machine program. That file holds the helpers an instruction handler uses to check accounts and to move funds:

- `assert_initialized` decodes an account's data and accepts the record only if it is initialized.
- `assert_owned_by` checks the program that owns an account.
- `spl_token_transfer` moves SPL tokens under a program-derived authority, and reports every runtime failure as `TokenTransferFailed`.
- `send_mint_part` looks up a creator in the candy machine's config. It pays that creator `floor(price * share / 100)` lamports out of the payer's account, using checked u64 arithmetic.

Files:

- `solana.dfy` (module `Solana`): u8/u64 ranges, 32-byte public keys, the `AccountInfo` fields the helpers read, `ProgramError`, `Result`/`ProgramResult`, and `Completion`. `Completion` separates a returned result from a Rust panic.
- `runtime.dfy` (module `Runtime`): an abstract ledger that stands in for the runtime behind `invoke` and `invoke_signed`. The class `Ledger` holds lamport balances and token accounts as maps. Its two methods carry out a system-program transfer and a token-program transfer, with `modifies this`. Each one either fails and changes nothing, or moves exactly the requested amount. The instruction builders of the token and system programs are modelled here too.
- `utils.dfy` (module `Utils`): the helpers of `utils.rs`, plus lemmas about creator lookup and payouts.

Three behaviours of the code are worth noting:

- On overflow of `price * share` the code panics via `checked_mul(..).unwrap()`; it returns no error. The model returns `Completion.Panicked`.
- In `spl_token_transfer`, an error from building the instruction (the `?` on line 72) is passed on unchanged. Only failures of `invoke_signed` become `TokenTransferFailed`.
- `send_mint_part` takes the price as a parameter; it does not read a price from the candy machine.

## Model

| member | source | states |
|---|---|---|
| `Utils.AssertInitialized` | rust/nft-candy-machine/src/utils.rs:18-27 | Ok exactly when the decode succeeds and the record is initialized, and then the decoded record is returned whole. A decode error is returned unchanged. A decoded but uninitialized record gives `Uninitialized`. |
| `Utils.AssertOwnedBy` | rust/nft-candy-machine/src/utils.rs:29-35 | Ok exactly when `account.owner == owner`; otherwise `IncorrectOwner`. It is a function, so it has no effect. |
| `Utils.OwnerMismatchIsByteDifference` | rust/nft-candy-machine/src/utils.rs:30 | The ownership check fails exactly when the two 32-byte keys differ in at least one byte. |
| `Utils.TransferInstruction` | rust/nft-candy-machine/src/utils.rs:65-72 | The instruction is addressed to the params' token program, names the params' source, destination and authority, and carries the exact `amount`, with no multisig co-signers. It builds exactly when the token program key is the SPL token program's. |
| `Runtime.BuildTokenTransfer` | rust/nft-candy-machine/src/utils.rs:65-72 | The token-transfer builder fails with `IncorrectProgramId` exactly when the program id is not the token program's. Otherwise it carries the given program id, accounts, co-signers and amount. |
| `Runtime.BuildSystemTransfer` | rust/nft-candy-machine/src/utils.rs:90-94 | The system-transfer instruction names the payer as `from`, the creator as `to`, and carries exactly the computed lamports. |
| `Runtime.TokenTransferError` | rust/nft-candy-machine/src/utils.rs:64-75 | The token program accepts a transfer only if all of these hold: the instruction is addressed to the token program, both accounts exist and are unfrozen, the source holds the amount, the mints agree, the authority owns the source and signs, and the destination's amount stays a u64. |
| `Runtime.Ledger.InvokeTokenTransfer` | rust/nft-candy-machine/src/utils.rs:64-75 | Fails exactly when the token program refuses, and then changes nothing. On success the source loses and the destination gains exactly `amount`, no other token-account field changes, and lamports are untouched. |
| `Utils.SplTokenTransfer` | rust/nft-candy-machine/src/utils.rs:54-78 | A build error is returned unchanged and the ledger is left alone. Any failure of the signed invoke becomes `TokenTransferFailed`, with all balances unchanged. On success exactly `amount` tokens move from source to destination. No token account appears or disappears, no mint, owner or frozen flag changes, and lamports are untouched. |
| `Runtime.SystemTransferError` | rust/nft-candy-machine/src/utils.rs:89-100 | The system program accepts a lamport transfer only if the payer signs, holds the amount, and the payee's balance stays a u64. Asking for more than the payer holds is always refused. |
| `Runtime.Ledger.InvokeSystemTransfer` | rust/nft-candy-machine/src/utils.rs:89-100 | Fails exactly when the system program refuses, and then changes nothing. On success the payer loses and the payee gains exactly the amount, no other balance changes, and token accounts are untouched. |
| `Utils.FindCreator` | rust/nft-candy-machine/src/utils.rs:82-83 | Finds nothing exactly when no entry has the key. Otherwise it returns a configured entry with that address. |
| `Utils.FirstMatchWins` | rust/nft-candy-machine/src/utils.rs:82-83 | The first entry in list order whose address matches is the one found, whatever duplicates follow it. |
| `Utils.CheckedMul` | rust/nft-candy-machine/src/utils.rs:86 | `checked_mul` gives a value exactly when the product fits in a u64, and that value is the product. |
| `Utils.CheckedDiv` | rust/nft-candy-machine/src/utils.rs:87 | `checked_div` gives a value exactly when the divisor is non-zero, and that value is the floor quotient. |
| `Utils.MintPartLamports` | rust/nft-candy-machine/src/utils.rs:86-87 | Panics (None) exactly when `price * share` exceeds u64::MAX. Otherwise the result `v` satisfies `100*v <= price*share < 100*(v+1)`, i.e. it is the floor of `price*share/100`. The division by 100 never fails. |
| `Utils.ShareAtMostPrice` | rust/nft-candy-machine/src/utils.rs:86-87 | With a share of at most 100, the payout is at most the price. |
| `Utils.OverflowThreshold` | rust/nft-candy-machine/src/utils.rs:86 | For a non-zero share, the multiplication overflows exactly when `price > u64::MAX / share`. |
| `Utils.MaxPriceFullShareOverflows` | rust/nft-candy-machine/src/utils.rs:86 | Price u64::MAX with share 100 panics rather than wrapping. |
| `Utils.MintPartIsPayout` | rust/nft-candy-machine/src/utils.rs:86-87 | When the checked computation succeeds, it equals the unbounded `floor(price*share/100)`. |
| `Utils.SendMintPart` | rust/nft-candy-machine/src/utils.rs:80-107 | `CreatorNotFound` is returned exactly when no entry has the creator's key. The call panics exactly when a creator is found and its product overflows. Otherwise it returns, and returns Ok exactly when the system program accepts the transfer of the computed lamports; a refusal is returned unchanged. Whenever the result is not Ok, no balance changes. On Ok, the first matching entry's share is used: exactly `floor(price*share/100)` lamports move from payer to creator, no other balance changes, and token accounts are untouched. |
| `Utils.SumPayoutsBound` | rust/nft-candy-machine/src/utils.rs:86-87 | Paying each entry its own rounded-down share never exceeds the shares' total percentage of the price. |
| `Utils.TotalPayoutAtMostPrice` | rust/nft-candy-machine/src/utils.rs:86-87 | If the shares sum to at most 100, the payouts to all entries sum to at most the price. |
| `Utils.DistinctCreatorsPaidAtMostPrice` | rust/nft-candy-machine/src/utils.rs:82-87 | Suppose addresses are distinct and shares sum to at most 100. Then calling the payout once per configured entry, each call using the lookup, pays at most the price. |
| `Utils.DuplicateAddressRepaysFirstShare` | rust/nft-candy-machine/src/utils.rs:82-83 | With one address listed twice (70 then 30), every call for that address pays the first share, so per-entry payouts total 140 on a price of 100. |

## Left out

- Byte-level decoding (`Pack::unpack_unchecked`) and the `IsInitialized` trait are not modelled. `Utils.AssertInitialized` takes them as function parameters: a decoder returning a record or a decode error, and an initialized predicate on the record.
- The derivation of a program address from `authority_signer_seeds` is not modelled. `Utils.SplTokenTransfer` takes the derived address (`seedSigner`) and the transaction's own signers as parameters. A failed derivation is not modelled either.
- The token program's processor and the system program are not part of this model. Their refusals are abstracted by `Runtime.TokenTransferError` and `Runtime.SystemTransferError`. The abstraction leaves out token delegates, multisig authorities, native (wrapped SOL) token accounts, and the system program's rule that the payer must carry no data.
- The runtime's checks on the account list passed to `invoke`/`invoke_signed` are not modelled: writable and signer privileges, and the presence of the program account. `systemProgram` and `authoritySignerSeeds` are therefore carried but never inspected.
- Instruction encoding of `spl_token::instruction::transfer` and `system_instruction::transfer` is left out. The builders keep only the fields and the program-id check.
- Numeric values of `ErrorCode` and of the other `ProgramError` codes are left out; errors are compared by kind.
- `AccountInfo` borrowing and lifetimes, and the Anchor `ProgramAccount` and `Config` schema beyond the creators list (address, verified flag, share), are left out.
- Mint eligibility (supply, timing, whitelist), the check that shares sum to at most 100, and the loop that pays each creator are not modelled. They live in the program's instruction handlers, which are not part of this model. The payout lemmas state what such a loop would pay.
- Transaction-wide rollback is not modelled. If a later step of the same transaction fails, earlier transfers are undone; the model covers one call at a time.
