/** The candy machine's settlement helpers: account checks, the token-transfer
    wrapper, and the payout of one creator's share of a mint price. */
module Utils {
  import opened Solana
  import opened Runtime

  // ---------------------------------------------------------------------------
  // Account checks
  // ---------------------------------------------------------------------------

  /** Decodes an account's data into a record with `unpackUnchecked` and accepts
      it only when `isInitialized` holds of it. A decode error comes back as it
      is; a decoded record that is not initialized gives `Uninitialized`; an
      initialized record is returned whole. */
  function AssertInitialized<T>(account: AccountInfo, unpackUnchecked: seq<bv8> -> Result<T>,
                                isInitialized: T -> bool): (r: Result<T>)
    ensures r.Ok? <==> unpackUnchecked(account.data).Ok? && isInitialized(unpackUnchecked(account.data).value)
    ensures r.Ok? ==> r == unpackUnchecked(account.data)
    ensures unpackUnchecked(account.data).Err? ==> r == unpackUnchecked(account.data)
    ensures unpackUnchecked(account.data).Ok? && r.Err? ==> r.error == Program(Uninitialized)
  {
    var decoded :- unpackUnchecked(account.data);
    if !isInitialized(decoded) then Err(Program(Uninitialized)) else Ok(decoded)
  }

  /** Accepts an account exactly when the program that owns it is `owner`. */
  function AssertOwnedBy(account: AccountInfo, owner: Pubkey): (r: ProgramResult)
    ensures r.Ok? <==> account.owner == owner
    ensures r.Err? ==> r.error == Program(IncorrectOwner)
  {
    if account.owner != owner then Err(Program(IncorrectOwner)) else Ok(())
  }

  /** Ownership fails exactly when the two keys differ in at least one of their
      32 bytes: there is no partial match. */
  lemma OwnerMismatchIsByteDifference(account: AccountInfo, owner: Pubkey)
    ensures AssertOwnedBy(account, owner).Err? <==> exists i :: 0 <= i < 32 && account.owner[i] != owner[i]
  {
    if account.owner != owner {
      assert !(forall i :: 0 <= i < 32 ==> account.owner[i] == owner[i]);
    }
  }

  // ---------------------------------------------------------------------------
  // Token transfer
  // ---------------------------------------------------------------------------

  /** The accounts and amount of one token transfer, with the seeds from which
      the runtime derives the authority's signature. */
  datatype TokenTransferParams = TokenTransferParams(
    source: AccountInfo, destination: AccountInfo, amount: u64, authority: AccountInfo,
    authoritySignerSeeds: seq<seq<bv8>>, tokenProgram: AccountInfo)

  /** The instruction `SplTokenTransfer` issues: a token-program transfer of
      `params.amount` with no multisig co-signers. */
  function TransferInstruction(params: TokenTransferParams): (r: Result<TokenInstruction>)
    ensures r.Ok? <==> params.tokenProgram.key == TOKEN_PROGRAM_ID
    ensures r.Ok? ==> r.value.programId == params.tokenProgram.key
    ensures r.Ok? ==> r.value.amount == params.amount && r.value.multisigSigners == []
    ensures r.Ok? ==> r.value.source == params.source.key && r.value.destination == params.destination.key
                      && r.value.authority == params.authority.key
  {
    BuildTokenTransfer(params.tokenProgram.key, params.source.key, params.destination.key,
                       params.authority.key, [], params.amount)
  }

  /** Moves `params.amount` tokens from `params.source` to `params.destination`
      under the authority signed for by `seedSigner`, the program-derived
      address the runtime computes from `params.authoritySignerSeeds`
      (`txSigners` are the transaction's own signers). A failure to build the
      instruction is returned as it is; every failure of the signed invocation
      becomes `TokenTransferFailed`. On failure no balance changes; on success
      exactly `params.amount` moves and nothing else changes. */
  method SplTokenTransfer(ledger: Ledger, params: TokenTransferParams, txSigners: set<Pubkey>, seedSigner: Pubkey)
    returns (r: ProgramResult)
    modifies ledger
    ensures TransferInstruction(params).Err? ==> r == Err(TransferInstruction(params).error) && ledger.lamports == old(ledger.lamports) && ledger.tokens == old(ledger.tokens)
    ensures TransferInstruction(params).Ok? ==>
      (r.Ok? <==> old(TokenTransferError(ledger.tokens, TransferInstruction(params).value, txSigners + {seedSigner})) == None)
    ensures TransferInstruction(params).Ok? && r.Err? ==> r.error == Program(TokenTransferFailed)
    ensures r.Err? ==> ledger.lamports == old(ledger.lamports) && ledger.tokens == old(ledger.tokens)
    ensures r.Ok? ==> ledger.tokens.Keys == old(ledger.tokens.Keys)
    ensures r.Ok? ==> forall k | k in ledger.tokens ::
      ledger.tokens[k] == old(ledger.tokens[k]).(amount := ledger.tokens[k].amount)
    ensures r.Ok? ==> forall k ::
      ledger.TokenAmount(k) == old(ledger.TokenAmount(k))
        - (if k == params.source.key then params.amount else 0)
        + (if k == params.destination.key then params.amount else 0)
    ensures ledger.lamports == old(ledger.lamports)
  {
    var ix :- TransferInstruction(params);
    var result := ledger.InvokeTokenTransfer(ix, txSigners + {seedSigner});
    r := if result.Err? then Err(Program(TokenTransferFailed)) else Ok(());
  }

  // ---------------------------------------------------------------------------
  // Creator payout
  // ---------------------------------------------------------------------------

  /** A creator registered in a candy machine's config, with its percentage
      of each sale. */
  datatype Creator = Creator(address: Pubkey, verified: bool, share: u8)

  datatype ConfigData = ConfigData(creators: seq<Creator>)

  datatype Config = Config(data: ConfigData)

  /** The first creator in list order whose address is `key`. */
  function FindCreator(creators: seq<Creator>, key: Pubkey): (r: Option<Creator>)
    ensures r.None? <==> forall i :: 0 <= i < |creators| ==> creators[i].address != key
    ensures r.Some? ==> r.value in creators && r.value.address == key
  {
    if creators == [] then None
    else if creators[0].address == key then Some(creators[0])
    else FindCreator(creators[1..], key)
  }

  /** When entry `i` is the first whose address is `key`, it is the one found,
      whatever entries with the same address follow it. */
  lemma {:induction false} FirstMatchWins(creators: seq<Creator>, key: Pubkey, i: nat)
    requires i < |creators| && creators[i].address == key
    requires forall j :: 0 <= j < i ==> creators[j].address != key
    ensures FindCreator(creators, key) == Some(creators[i])
  {
    if i > 0 {
      assert creators[0].address != key;
      FirstMatchWins(creators[1..], key, i - 1);
    }
  }

  /** `a.checked_mul(b)` on u64. */
  function CheckedMul(a: u64, b: u64): (r: Option<u64>)
    ensures r.Some? <==> a * b <= U64_MAX
    ensures r.Some? ==> r.value == a * b
  {
    if a * b <= U64_MAX then Some(a * b) else None
  }

  /** `a.checked_div(b)` on u64, which fails only on a zero divisor. */
  function CheckedDiv(a: u64, b: u64): (r: Option<u64>)
    ensures r.Some? <==> b != 0
    ensures r.Some? ==> r.value == a / b && r.value * b <= a < (r.value + 1) * b
  {
    if b == 0 then None else Some(a / b)
  }

  /** `price.checked_mul(share).unwrap().checked_div(100).unwrap()`: `None`
      stands for the panic of the first `unwrap`; the second never panics.
      The result is the floor of `price * share / 100`. */
  function MintPartLamports(price: u64, share: u8): (r: Option<u64>)
    ensures r.None? <==> price * share > U64_MAX
    ensures r.Some? ==> r.value * 100 <= price * share < (r.value + 1) * 100
  {
    match CheckedMul(price, share)
    case None => None
    case Some(product) =>
      var quotient := CheckedDiv(product, 100);
      assert quotient.Some?;
      quotient
  }

  /** A share of at most 100 percent never pays out more than the price. */
  lemma ShareAtMostPrice(price: u64, share: u8)
    requires share <= 100 && MintPartLamports(price, share).Some?
    ensures MintPartLamports(price, share).value <= price
  {
  }

  /** The multiplication overflows exactly when the price exceeds
      `u64::MAX / share`; with share 100 that is any price above
      184467440737095516. */
  lemma {:induction false} OverflowThreshold(price: u64, share: u8)
    requires share > 0
    ensures MintPartLamports(price, share).None? <==> price > U64_MAX / share
  {
    var q := U64_MAX / share;
    assert U64_MAX == q * share + U64_MAX % share;
    if price > q {
      MulMonotone(share, q + 1, price);
      assert price * share >= (q + 1) * share;
    } else {
      MulMonotone(share, price, q);
      assert price * share <= q * share;
    }
  }

  /** The largest price with a full share panics instead of wrapping. */
  lemma MaxPriceFullShareOverflows()
    ensures MintPartLamports(U64_MAX as u64, 100).None?
  {
  }

  lemma MulMonotone(a: nat, b: nat, c: nat)
    requires b <= c
    ensures a * b <= a * c
  {
  }

  /** Pays the creator `creatorInfo` its share of `price` out of `payer`'s
      lamports. A key matching no configured creator gives `CreatorNotFound`;
      the first matching entry supplies the share; an overflowing
      `price * share` panics; otherwise exactly `floor(price * share / 100)`
      lamports move from payer to creator, and a failure of that transfer is
      returned as it is. Whenever the call does not return `Ok`, no balance
      changes. */
  method SendMintPart(ledger: Ledger, config: Config, price: u64, creatorInfo: AccountInfo,
                      payer: AccountInfo, systemProgram: AccountInfo, signers: set<Pubkey>)
    returns (c: Completion)
    modifies ledger
    ensures c == Returned(Err(Program(CreatorNotFound))) <==>
      FindCreator(config.data.creators, creatorInfo.key).None?
    ensures var found := FindCreator(config.data.creators, creatorInfo.key);
      c == Panicked <==> found.Some? && MintPartLamports(price, found.value.share).None?
    ensures var found := FindCreator(config.data.creators, creatorInfo.key);
      found.Some? && MintPartLamports(price, found.value.share).Some? ==>
        var ix := BuildSystemTransfer(payer.key, creatorInfo.key, MintPartLamports(price, found.value.share).value);
        c.Returned? && (c.result.Ok? <==> old(SystemTransferError(ledger.lamports, ix, signers)) == None)
    ensures c != Returned(Ok(())) ==> ledger.lamports == old(ledger.lamports) && ledger.tokens == old(ledger.tokens)
    ensures c.Returned? && c.result.Err? && c.result.error != Program(CreatorNotFound) ==>
      var share := FindCreator(config.data.creators, creatorInfo.key).value.share;
      var ix := BuildSystemTransfer(payer.key, creatorInfo.key, MintPartLamports(price, share).value);
      Some(c.result.error) == old(SystemTransferError(ledger.lamports, ix, signers))
    ensures c == Returned(Ok(())) ==>
      exists i :: 0 <= i < |config.data.creators| && config.data.creators[i].address == creatorInfo.key
        && (forall j :: 0 <= j < i ==> config.data.creators[j].address != creatorInfo.key)
        && var paid := MintPartLamports(price, config.data.creators[i].share);
           paid.Some? && forall k ::
             ledger.Lamports(k) == old(ledger.Lamports(k))
               - (if k == payer.key then paid.value else 0)
               + (if k == creatorInfo.key then paid.value else 0)
    ensures ledger.tokens == old(ledger.tokens)
  {
    var found := FindCreator(config.data.creators, creatorInfo.key);
    if found.None? {
      return Returned(Err(Program(CreatorNotFound)));
    }
    var lamports := MintPartLamports(price, found.value.share);
    if lamports.None? {
      return Panicked;
    }
    var result := ledger.InvokeSystemTransfer(BuildSystemTransfer(payer.key, creatorInfo.key, lamports.value), signers);
    if result.Err? {
      return Returned(result);
    }
    ghost var i := FirstIndex(config.data.creators, creatorInfo.key);
    FirstMatchWins(config.data.creators, creatorInfo.key, i);
    c := Returned(Ok(()));
  }

  /** The index of the first entry whose address is `key`. */
  ghost function FirstIndex(creators: seq<Creator>, key: Pubkey): (i: nat)
    requires exists i :: 0 <= i < |creators| && creators[i].address == key
    ensures i < |creators| && creators[i].address == key
    ensures forall j :: 0 <= j < i ==> creators[j].address != key
  {
    if creators[0].address == key then 0
    else
      assert exists i :: 0 <= i < |creators[1..]| && creators[1..][i].address == key by {
        var i :| 0 <= i < |creators| && creators[i].address == key;
        assert creators[1..][i - 1] == creators[i];
      }
      1 + FirstIndex(creators[1..], key)
  }

  // ---------------------------------------------------------------------------
  // Payouts across a configuration
  // ---------------------------------------------------------------------------

  function SumShares(creators: seq<Creator>): nat {
    if creators == [] then 0 else creators[0].share + SumShares(creators[1..])
  }

  /** The exact payout of a share, `floor(price * share / 100)`, without the
      u64 bound. */
  function Payout(price: u64, share: u8): nat {
    price * share / 100
  }

  /** Total paid when every entry of `creators` is paid its own share. */
  function SumPayouts(price: u64, creators: seq<Creator>): nat {
    if creators == [] then 0 else Payout(price, creators[0].share) + SumPayouts(price, creators[1..])
  }

  /** Whenever the checked computation succeeds it agrees with `Payout`. */
  lemma MintPartIsPayout(price: u64, share: u8)
    requires MintPartLamports(price, share).Some?
    ensures MintPartLamports(price, share).value == Payout(price, share)
  {
  }

  /** Rounding each payout down never pays more than the shares' total
      percentage of the price. */
  lemma {:induction false} SumPayoutsBound(price: u64, creators: seq<Creator>)
    ensures SumPayouts(price, creators) * 100 <= price * SumShares(creators)
  {
    if creators != [] {
      SumPayoutsBound(price, creators[1..]);
      var s := creators[0].share;
      assert Payout(price, s) * 100 <= price * s;
      assert price * SumShares(creators) == price * s + price * SumShares(creators[1..]);
    }
  }

  /** When the configured shares sum to at most 100, paying every entry its
      share pays out at most the price. */
  lemma TotalPayoutAtMostPrice(price: u64, creators: seq<Creator>)
    requires SumShares(creators) <= 100
    ensures SumPayouts(price, creators) <= price
  {
    SumPayoutsBound(price, creators);
    MulMonotone(price, SumShares(creators), 100);
  }

  /** Total paid when `SendMintPart` is called once per entry of `entries`,
      each call looking its key up in `creators`. */
  function LookedUpPayouts(price: u64, creators: seq<Creator>, entries: seq<Creator>): nat {
    if entries == [] then 0
    else
      var found := FindCreator(creators, entries[0].address);
      (if found.Some? then Payout(price, found.value.share) else 0)
        + LookedUpPayouts(price, creators, entries[1..])
  }

  predicate DistinctAddresses(creators: seq<Creator>) {
    forall i, j :: 0 <= i < j < |creators| ==> creators[i].address != creators[j].address
  }

  lemma {:induction false} LookedUpIsOwnShare(price: u64, creators: seq<Creator>, entries: seq<Creator>)
    requires forall e | e in entries :: FindCreator(creators, e.address) == Some(e)
    ensures LookedUpPayouts(price, creators, entries) == SumPayouts(price, entries)
  {
    if entries != [] {
      assert entries[0] in entries;
      LookedUpIsOwnShare(price, creators, entries[1..]);
    }
  }

  /** With distinct addresses, paying each configured entry through the lookup
      pays at most the price when the shares sum to at most 100. */
  lemma DistinctCreatorsPaidAtMostPrice(price: u64, creators: seq<Creator>)
    requires DistinctAddresses(creators) && SumShares(creators) <= 100
    ensures LookedUpPayouts(price, creators, creators) <= price
  {
    forall e | e in creators
      ensures FindCreator(creators, e.address) == Some(e)
    {
      var i :| 0 <= i < |creators| && creators[i] == e;
      FirstMatchWins(creators, e.address, i);
    }
    LookedUpIsOwnShare(price, creators, creators);
    TotalPayoutAtMostPrice(price, creators);
  }

  /** With a repeated address the first entry's share is paid for every entry
      with that address: shares 70 and 30 for one key pay 140 of a price of 100. */
  lemma DuplicateAddressRepaysFirstShare(key: Pubkey)
    ensures var creators := [Creator(key, true, 70), Creator(key, true, 30)];
            SumShares(creators) == 100 && LookedUpPayouts(100, creators, creators) == 140
  {
    var creators := [Creator(key, true, 70), Creator(key, true, 30)];
    var rest := [Creator(key, true, 30)];
    assert creators[1..] == rest && rest[1..] == [];
    assert SumShares(rest) == 30 + SumShares([]);
    assert FindCreator(creators, key) == Some(Creator(key, true, 70));
    assert LookedUpPayouts(100, creators, rest) == 70 + LookedUpPayouts(100, creators, []);
  }
}
