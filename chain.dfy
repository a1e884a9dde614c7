/** Read-only view of the two contracts the escrow-kick callback talks to.
    Every read is an oracle: the chain state is fixed for the duration of one
    invocation, so a read is a pure function of the contract address and its
    arguments, and it either answers or fails (network error, node error,
    malformed reply, unusable contract address). */
module ChainReads {

  /** The answer of one read call, or the error it raised. */
  datatype Result<T> = Ok(value: T) | Err(error: string)

  /** What `positions(tokenId)` of the escrow-token contract returns.
      An `unlockTime` of 0 marks an id that holds no position. */
  datatype Position = Position(lockedAmount: nat, boostedAmount: nat, unlockTime: nat)

  /** The view functions the callback calls, keyed by the address of the
      contract they are called on:
      - `nextTokenId()` on the escrow-NFT contract,
      - `positions(tokenId)` and `canUnlock(tokenId)` on the escrow-token contract. */
  datatype Chain = Chain(
    nextTokenId: string -> Result<nat>,
    positions: (string, nat) -> Result<Position>,
    canUnlock: (string, nat) -> Result<bool>)

  /** One read call issued against the chain, in the order it was issued. */
  datatype Query =
    | NextTokenId(nft: string)
    | Positions(token: string, id: nat)
    | CanUnlock(token: string, id: nat)

  /** The read `q` raised the error `e`. */
  predicate Fails(chain: Chain, q: Query, e: string)
  {
    match q
    case NextTokenId(a) => chain.nextTokenId(a) == Err(e)
    case Positions(t, i) => chain.positions(t, i) == Err(e)
    case CanUnlock(t, i) => chain.canUnlock(t, i) == Err(e)
  }

  /** The read `q` answered: it raised no error. */
  ghost predicate Answers(chain: Chain, q: Query)
  {
    forall e :: !Fails(chain, q, e)
  }
}
