/** An abstract ledger standing in for the Solana runtime behind `invoke` and
    `invoke_signed`: native lamport balances moved by the system program, and
    token accounts moved by the SPL token program. Each cross-program call
    either fails and changes nothing, or moves exactly the requested amount. */
module Runtime {
  import opened Solana

  /** `system_program::id()`, the all-zero key. */
  const SYSTEM_PROGRAM_ID: Pubkey := seq(32, _ => 0)

  /** `spl_token::id()`, TokenkegQfeZyiNwAJbNbGKPFXCWuBvf9Ss623VQ5DA. */
  const TOKEN_PROGRAM_ID: Pubkey :=
    [0x06, 0xdd, 0xf6, 0xe1, 0xd7, 0x65, 0xa1, 0x93, 0xd9, 0xcb, 0xe1, 0x46, 0xce, 0xeb, 0x79, 0xac,
     0x1c, 0xb4, 0x85, 0xed, 0x5f, 0x5b, 0x37, 0x91, 0x3a, 0x8c, 0xf5, 0x85, 0x7e, 0xff, 0x00, 0xa9]

  /** The state of an SPL token account that a transfer reads or changes. */
  datatype TokenAccount = TokenAccount(mint: Pubkey, owner: Pubkey, amount: u64, frozen: bool)

  /** A token-program `Transfer` instruction: the program it is addressed to,
      the accounts it names, its multisig co-signers and the amount. */
  datatype TokenInstruction = TokenTransfer(
    programId: Pubkey, source: Pubkey, destination: Pubkey, authority: Pubkey,
    multisigSigners: seq<Pubkey>, amount: u64)

  /** A system-program `Transfer` instruction. */
  datatype SystemInstruction = SystemTransfer(from: Pubkey, to: Pubkey, lamports: u64)

  /** `spl_token::instruction::transfer`: the builder only refuses a program id
      that is not the token program's. */
  function BuildTokenTransfer(tokenProgramId: Pubkey, source: Pubkey, destination: Pubkey,
                              authority: Pubkey, multisigSigners: seq<Pubkey>, amount: u64)
    : (r: Result<TokenInstruction>)
    ensures r.Ok? <==> tokenProgramId == TOKEN_PROGRAM_ID
    ensures r.Err? ==> r.error == IncorrectProgramId
    ensures r.Ok? ==>
      r.value.programId == tokenProgramId
      && r.value.source == source && r.value.destination == destination
      && r.value.authority == authority && r.value.amount == amount
      && r.value.multisigSigners == multisigSigners
  {
    if tokenProgramId != TOKEN_PROGRAM_ID then Err(IncorrectProgramId)
    else Ok(TokenTransfer(tokenProgramId, source, destination, authority, multisigSigners, amount))
  }

  /** `system_instruction::transfer`. */
  function BuildSystemTransfer(from: Pubkey, to: Pubkey, lamports: u64): (ix: SystemInstruction)
    ensures ix.from == from && ix.to == to && ix.lamports == lamports
  {
    SystemTransfer(from, to, lamports)
  }

  /** Lamports held by `key` in `balances`; an account the ledger has never
      seen holds none. */
  function LamportsOf(balances: map<Pubkey, u64>, key: Pubkey): u64 {
    if key in balances then balances[key] else 0
  }

  /** Why the system program refuses a lamport transfer, if it does: the payer
      must sign, must hold the amount, and the payee's balance must stay a u64. */
  function SystemTransferError(balances: map<Pubkey, u64>, ix: SystemInstruction, signers: set<Pubkey>)
    : (e: Option<ProgramError>)
    ensures e == None ==>
      ix.from in signers && ix.lamports <= LamportsOf(balances, ix.from)
      && (ix.from != ix.to ==> LamportsOf(balances, ix.to) + ix.lamports <= U64_MAX)
    ensures ix.lamports > LamportsOf(balances, ix.from) ==> e != None
  {
    if ix.from !in signers then Some(MissingRequiredSignature)
    else if ix.lamports > LamportsOf(balances, ix.from) then Some(System(ResultWithNegativeLamports))
    else if ix.from != ix.to && LamportsOf(balances, ix.to) + ix.lamports > U64_MAX then Some(ArithmeticOverflow)
    else None
  }

  /** Why the token program refuses a transfer, if it does: the instruction
      must be addressed to the token program; then, in the order its processor
      checks, both accounts exist and are not frozen, the source holds
      the amount, the mints agree, the source's owner is the authority and signs,
      and the destination's amount stays a u64. */
  function TokenTransferError(tokens: map<Pubkey, TokenAccount>, ix: TokenInstruction, signers: set<Pubkey>)
    : (e: Option<ProgramError>)
    ensures e == None ==>
      ix.programId == TOKEN_PROGRAM_ID
      && ix.source in tokens && ix.destination in tokens
      && ix.amount <= tokens[ix.source].amount
      && tokens[ix.source].mint == tokens[ix.destination].mint
      && tokens[ix.source].owner == ix.authority && ix.authority in signers
      && !tokens[ix.source].frozen && !tokens[ix.destination].frozen
      && (ix.source != ix.destination ==> tokens[ix.destination].amount + ix.amount <= U64_MAX)
  {
    if ix.programId != TOKEN_PROGRAM_ID then Some(IncorrectProgramId)
    else if ix.source !in tokens || ix.destination !in tokens then Some(InvalidAccountData)
    else
      var src, dst := tokens[ix.source], tokens[ix.destination];
      if src.frozen || dst.frozen then Some(Token(AccountFrozen))
      else if src.amount < ix.amount then Some(Token(InsufficientFunds))
      else if src.mint != dst.mint then Some(Token(MintMismatch))
      else if src.owner != ix.authority then Some(Token(OwnerMismatch))
      else if ix.authority !in signers then Some(MissingRequiredSignature)
      else if ix.source != ix.destination && dst.amount + ix.amount > U64_MAX then Some(Token(Overflow))
      else None
  }

  class Ledger {
    /** Native balances, in lamports. */
    var lamports: map<Pubkey, u64>
    /** Token accounts, by address. */
    var tokens: map<Pubkey, TokenAccount>

    constructor (lamports: map<Pubkey, u64>, tokens: map<Pubkey, TokenAccount>)
      ensures this.lamports == lamports && this.tokens == tokens
    {
      this.lamports := lamports;
      this.tokens := tokens;
    }

    function Lamports(key: Pubkey): u64
      reads this
    {
      LamportsOf(lamports, key)
    }

    /** The token amount held at `key`, zero when there is no such account. */
    function TokenAmount(key: Pubkey): u64
      reads this
    {
      if key in tokens then tokens[key].amount else 0
    }

    /** `invoke` of a system-program transfer. On success the payer loses and
        the payee gains exactly `ix.lamports` and no other balance changes; on
        failure nothing changes. Token accounts are never touched. */
    method InvokeSystemTransfer(ix: SystemInstruction, signers: set<Pubkey>) returns (r: ProgramResult)
      modifies this
      ensures r.Err? <==> old(SystemTransferError(lamports, ix, signers)) != None
      ensures r.Err? ==> r.error == old(SystemTransferError(lamports, ix, signers)).value
      ensures r.Err? ==> lamports == old(lamports)
      ensures r.Ok? ==> forall k ::
        Lamports(k) == old(Lamports(k)) - (if k == ix.from then ix.lamports else 0) + (if k == ix.to then ix.lamports else 0)
      ensures tokens == old(tokens)
    {
      var e := SystemTransferError(lamports, ix, signers);
      if e.Some? {
        return Err(e.value);
      }
      var payer := Lamports(ix.from);
      lamports := lamports[ix.from := payer - ix.lamports];
      var payee := Lamports(ix.to);
      lamports := lamports[ix.to := payee + ix.lamports];
      r := Ok(());
    }

    /** `invoke_signed` of a token-program transfer. On success the source's
        amount drops and the destination's rises by exactly `ix.amount`, and no
        other field of any token account changes; on failure nothing changes.
        Lamport balances are never touched. */
    method InvokeTokenTransfer(ix: TokenInstruction, signers: set<Pubkey>) returns (r: ProgramResult)
      modifies this
      ensures r.Err? <==> old(TokenTransferError(tokens, ix, signers)) != None
      ensures r.Err? ==> r.error == old(TokenTransferError(tokens, ix, signers)).value
      ensures r.Err? ==> tokens == old(tokens)
      ensures r.Ok? ==> tokens.Keys == old(tokens.Keys)
      ensures r.Ok? ==> forall k | k in tokens :: tokens[k] == old(tokens[k]).(amount := tokens[k].amount)
      ensures r.Ok? ==> forall k ::
        TokenAmount(k) == old(TokenAmount(k)) - (if k == ix.source then ix.amount else 0) + (if k == ix.destination then ix.amount else 0)
      ensures lamports == old(lamports)
    {
      var e := TokenTransferError(tokens, ix, signers);
      if e.Some? {
        return Err(e.value);
      }
      var src := tokens[ix.source];
      tokens := tokens[ix.source := src.(amount := src.amount - ix.amount)];
      var dst := tokens[ix.destination];
      tokens := tokens[ix.destination := dst.(amount := dst.amount + ix.amount)];
      r := Ok(());
    }
  }
}
