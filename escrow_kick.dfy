/** The escrow-kick Web3 Function: one run checks its two user arguments,
    reads how many position ids the escrow-NFT contract has issued, scans the
    ids in ascending order and proposes `kick(id)` for the first position of
    the escrow-token contract that exists and can be unlocked. Any failed read
    ends the run with a failure result. */
module EscrowKick {
  import opened ChainReads

  datatype Option<T> = None | Some(value: T)

  /** The user arguments; an argument may be absent. */
  datatype UserArgs = UserArgs(escrowToken: Option<string>, escrowNft: Option<string>)

  /** A user argument passes the `!arg` test: it is present and not the
      empty string (the two falsy values a string argument can take). */
  predicate Provided(arg: Option<string>)
  {
    arg.Some? && arg.value != ""
  }

  /** Why a run proposes nothing. */
  datatype Message =
    | EscrowTokenNotProvided
    | EscrowNftNotProvided
    | NoCallsToKick
    | RpcCallFailed(error: string)

  /** The encoded call `kick(tokenId)` of the escrow-token contract. */
  datatype Payload = Kick(tokenId: nat)

  datatype CallData = CallData(to: string, data: Payload)

  /** The result of a run: `canExec: false` with a message, or `canExec: true`
      with the calls to execute. */
  datatype Outcome = CannotExec(message: Message) | CanExec(callData: seq<CallData>)

  // ---------------------------------------------------------------------------
  // Per-id view of the escrow-token contract

  /** Id `i` holds a position: `positions(i)` answers with a non-zero unlock time. */
  predicate Live(chain: Chain, token: string, i: nat)
  {
    chain.positions(token, i).Ok? && chain.positions(token, i).value.unlockTime > 0
  }

  /** Id `i` holds a position that `canUnlock(i)` says can be unlocked. */
  predicate Eligible(chain: Chain, token: string, i: nat)
  {
    Live(chain, token, i) && chain.canUnlock(token, i) == Ok(true)
  }

  /** Every read the scan makes for id `i` answers. */
  predicate ReadsSucceed(chain: Chain, token: string, i: nat)
  {
    chain.positions(token, i).Ok? && (Live(chain, token, i) ==> chain.canUnlock(token, i).Ok?)
  }

  /** The read the scan makes for id `i` raises `e`: `positions(i)` itself, or
      `canUnlock(i)` for a live id. */
  predicate FailsAt(chain: Chain, token: string, i: nat, e: string)
  {
    chain.positions(token, i) == Err(e) || (Live(chain, token, i) && chain.canUnlock(token, i) == Err(e))
  }

  /** What the scan decides at one id. */
  datatype Verdict = Skip | Kickable | Failed(error: string)

  /** One iteration of the scan at id `i`: read `positions(i)`; an unlock time
      of 0 skips the id; otherwise read `canUnlock(i)`. */
  function Inspect(chain: Chain, token: string, i: nat): (v: Verdict)
    ensures v.Kickable? <==> Eligible(chain, token, i)
    ensures v.Skip? <==> ReadsSucceed(chain, token, i) && !Eligible(chain, token, i)
    ensures v.Failed? ==> FailsAt(chain, token, i, v.error)
    ensures forall e :: FailsAt(chain, token, i, e) ==> v == Failed(e)
  {
    match chain.positions(token, i)
    case Err(e) => Failed(e)
    case Ok(p) =>
      if p.unlockTime == 0 then Skip
      else
        match chain.canUnlock(token, i)
        case Err(e) => Failed(e)
        case Ok(can) => if can then Kickable else Skip
  }

  // ---------------------------------------------------------------------------
  // Specification of a run

  /** The lowest id in `[lo, n)` at which the scan stops (a kick or a failed
      read), if any. */
  function FirstStop(chain: Chain, token: string, lo: nat, n: nat): (r: Option<nat>)
    decreases n - lo
    ensures r.Some? ==> lo <= r.value < n && !Inspect(chain, token, r.value).Skip?
    ensures forall j :: lo <= j < n && (r.None? || j < r.value) ==> Inspect(chain, token, j).Skip?
  {
    if lo >= n then None
    else if !Inspect(chain, token, lo).Skip? then Some(lo)
    else FirstStop(chain, token, lo + 1, n)
  }

  /** The lowest eligible id in `[lo, n)`, if any, ignoring read failures. */
  function FirstEligible(chain: Chain, token: string, lo: nat, n: nat): (r: Option<nat>)
    decreases n - lo
    ensures r.Some? ==> lo <= r.value < n && Eligible(chain, token, r.value)
    ensures forall j :: lo <= j < n && (r.None? || j < r.value) ==> !Eligible(chain, token, j)
  {
    if lo >= n then None
    else if Eligible(chain, token, lo) then Some(lo)
    else FirstEligible(chain, token, lo + 1, n)
  }

  /** The outcome of one run. The arguments are checked in order, and a
      proposed call is a single `kick` of an eligible id, sent to the
      escrow-token contract. */
  function Evaluate(args: UserArgs, chain: Chain): (o: Outcome)
    ensures o == CannotExec(EscrowTokenNotProvided) <==> !Provided(args.escrowToken)
    ensures o == CannotExec(EscrowNftNotProvided) <==> Provided(args.escrowToken) && !Provided(args.escrowNft)
    ensures o.CanExec? ==>
              Provided(args.escrowToken) && Provided(args.escrowNft) &&
              |o.callData| == 1 && o.callData[0].to == args.escrowToken.value &&
              Eligible(chain, args.escrowToken.value, o.callData[0].data.tokenId)
  {
    if !Provided(args.escrowToken) then CannotExec(EscrowTokenNotProvided)
    else if !Provided(args.escrowNft) then CannotExec(EscrowNftNotProvided)
    else
      var token := args.escrowToken.value;
      match chain.nextTokenId(args.escrowNft.value)
      case Err(e) => CannotExec(RpcCallFailed(e))
      case Ok(n) =>
        match FirstStop(chain, token, 0, n)
        case None => CannotExec(NoCallsToKick)
        case Some(k) =>
          var v := Inspect(chain, token, k);
          if v.Kickable? then CanExec([CallData(token, Kick(k))])
          else CannotExec(RpcCallFailed(v.error))
  }

  /** How many ids a run with bound `n` visits. */
  function Scanned(chain: Chain, token: string, n: nat): (m: nat)
    ensures m <= n
  {
    match FirstStop(chain, token, 0, n)
    case None => n
    case Some(k) => k + 1
  }

  /** The reads issued for id `i`. */
  ghost function IdQueries(chain: Chain, token: string, i: nat): (q: seq<Query>)
    ensures 1 <= |q| <= 2
  {
    [Positions(token, i)] + if Live(chain, token, i) then [CanUnlock(token, i)] else []
  }

  /** The reads issued for ids `0 .. m-1`, in order: one or two per id. */
  ghost function ScanQueries(chain: Chain, token: string, m: nat): (s: seq<Query>)
    ensures m <= |s| <= 2 * m
  {
    if m == 0 then [] else ScanQueries(chain, token, m - 1) + IdQueries(chain, token, m - 1)
  }

  /** The reads one run issues, in order. A run reads nothing exactly when an
      argument is missing; otherwise it starts with `nextTokenId()` on the
      escrow-NFT contract and issues at most two reads per id below it. */
  ghost function Trace(args: UserArgs, chain: Chain): (t: seq<Query>)
    ensures t == [] <==> !Provided(args.escrowToken) || !Provided(args.escrowNft)
    ensures t != [] ==> t[0] == NextTokenId(args.escrowNft.value)
    ensures t != [] && chain.nextTokenId(args.escrowNft.value).Err? ==> |t| == 1
    ensures t != [] && chain.nextTokenId(args.escrowNft.value).Ok? ==>
              |t| <= 1 + 2 * chain.nextTokenId(args.escrowNft.value).value
  {
    if !Provided(args.escrowToken) || !Provided(args.escrowNft) then []
    else
      var nft := args.escrowNft.value;
      [NextTokenId(nft)] +
        match chain.nextTokenId(nft)
        case Err(_) => []
        case Ok(n) => ScanQueries(chain, args.escrowToken.value, Scanned(chain, args.escrowToken.value, n))
  }

  // ---------------------------------------------------------------------------
  // The callback

  /** One run of the callback. `trace` records the reads in the order they are issued. */
  method OnRun(args: UserArgs, chain: Chain) returns (outcome: Outcome, ghost trace: seq<Query>)
    ensures !Provided(args.escrowToken) ==> outcome == CannotExec(EscrowTokenNotProvided) && trace == []
    ensures Provided(args.escrowToken) && !Provided(args.escrowNft) ==>
              outcome == CannotExec(EscrowNftNotProvided) && trace == []
    ensures outcome == Evaluate(args, chain)
    ensures trace == Trace(args, chain)
  {
    trace := [];
    if !Provided(args.escrowToken) {
      outcome := CannotExec(EscrowTokenNotProvided);
      return;
    }
    var token := args.escrowToken.value;
    if !Provided(args.escrowNft) {
      outcome := CannotExec(EscrowNftNotProvided);
      return;
    }
    var nft := args.escrowNft.value;

    trace := trace + [NextTokenId(nft)];
    var next := chain.nextTokenId(nft);
    if next.Err? {
      outcome := CannotExec(RpcCallFailed(next.error));
      return;
    }
    var nextTokenId := next.value;

    var i := 0;
    while i < nextTokenId
      invariant i <= nextTokenId
      invariant forall j :: 0 <= j < i ==> Inspect(chain, token, j).Skip?
      invariant trace == [NextTokenId(nft)] + ScanQueries(chain, token, i)
    {
      trace := trace + [Positions(token, i)];
      var positions := chain.positions(token, i);
      if positions.Err? {
        assert Inspect(chain, token, i) == Failed(positions.error);
        outcome := CannotExec(RpcCallFailed(positions.error));
        return;
      }
      if positions.value.unlockTime > 0 {
        trace := trace + [CanUnlock(token, i)];
        var canUnlock := chain.canUnlock(token, i);
        if canUnlock.Err? {
          assert Inspect(chain, token, i) == Failed(canUnlock.error);
          outcome := CannotExec(RpcCallFailed(canUnlock.error));
          return;
        }
        if canUnlock.value {
          assert Inspect(chain, token, i) == Kickable;
          outcome := CanExec([CallData(token, Kick(i))]);
          return;
        }
      }
      i := i + 1;
    }
    outcome := CannotExec(NoCallsToKick);
  }
}
