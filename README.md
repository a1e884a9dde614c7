# Escrow-kick Web3 Function, modelled in Dafny

The escrow-kick Web3 Function is a Gelato automation callback. Each run does
the following:

1. It checks its two user arguments. `escrowToken` is checked first, then
   `escrowNft`. If either is missing it answers `canExec: false` with
   "… is not provided".
2. It reads `nextTokenId()` from the escrow-NFT contract.
3. It walks the position ids `0 .. nextTokenId-1` in ascending order. For each
   id it reads `positions(i)` from the escrow-token contract. An id whose
   `unlockTime` is 0 holds no position and is skipped. For any other id it
   reads `canUnlock(i)`.
4. At the first id where `canUnlock(i)` is true, it returns `canExec: true`
   with exactly one call: `kick(i)` on the escrow-token contract.
5. If no id qualifies, it answers "Done, No calls to kick()".
6. If any read throws, it answers "Rpc call failed".

The project has three files:

- `chain.dfy` (module `ChainReads`) models the chain as read-only oracles.
  `nextTokenId`, `positions` and `canUnlock` are functions of the contract
  address and their arguments. Each returns `Ok(value)` or `Err(error)`. The
  chain state is fixed for one run, so a read is a pure function. The module
  also defines `Query`, one issued read, and `Fails`/`Answers` on a read.
- `escrow_kick.dfy` (module `EscrowKick`) has three parts:
  - the user arguments, and the outcome `CannotExec(message) | CanExec(callData)`;
  - the specification of a run: `Inspect` (one iteration of the loop),
    `FirstStop`, `Evaluate` (the outcome) and `Trace` (the reads issued, in
    order);
  - the callback itself. `OnRun` is a method with a `while` loop that mirrors
    the `for` loop. It keeps a ghost trace of its reads and is proved to return
    `Evaluate` and to issue exactly `Trace`.
- `properties.dfy` (module `EscrowKickProperties`) proves what a run
  guarantees:
  - the lowest eligible id wins, in both directions;
  - when the outcome is "nothing to do", and when it is a failure, each stated
    as an if-and-only-if;
  - when no read fails, the run agrees with `FirstEligible`;
  - the reads form an ascending prefix of the ids, and `canUnlock(i)` is read
    only for live ids, right after `positions(i)`;
  - nothing is read past the kicked id;
  - a failed read is the last read of the run;
  - a worked three-position example.

Evaluate is a function of the arguments and the chain, so two runs on the
same chain state give the same outcome by construction. Two further modelling
choices:

- The messages are the code's own: "userArgs.escrowToken is not provided",
  "userArgs.escrowNft is not provided", "Done, No calls to kick()" and "Rpc
  call failed …". They are modelled as the `Message` constructors.
- An id is skipped exactly when `unlockTime` is 0 (`unlockTime.gt(0)` on an
  unsigned value).

## Model

| member | source | states |
|---|---|---|
| EscrowKick.Inspect | web3-functions/escrow-kick/index.ts:43-48 | One loop iteration at id i gives Kickable exactly when the position exists and `canUnlock(i)` is true. It gives Skip exactly when every read for i answered and i is not eligible. A Failed verdict carries the error of the read that failed, which is `positions(i)`, or `canUnlock(i)` for a live id. |
| EscrowKick.FirstStop | web3-functions/escrow-kick/index.ts:42-64 | Returns the lowest id in [lo, n) where the scan stops, either a kick or a failed read. Every lower id is skipped. It returns None exactly when every id in range is skipped. |
| EscrowKick.FirstEligible | web3-functions/escrow-kick/index.ts:42-62 | Returns the lowest eligible id in [lo, n). No lower id is eligible, and None means no id in range is eligible. |
| EscrowKick.Evaluate | web3-functions/escrow-kick/index.ts:17-69 | The outcome of one run. "escrowToken is not provided" exactly when `escrowToken` is missing or empty. "escrowNft is not provided" exactly when `escrowToken` is given and `escrowNft` is missing or empty. A `canExec: true` result is one call to the escrow-token address kicking an eligible id. The properties module proves which id wins (KickIsLowestEligible, LowestEligibleIsKicked, AgreesWithFirstEligible) and when each `canExec: false` message occurs (NoCallsIffNothingEligible, RpcFailureIff). |
| EscrowKick.Trace | web3-functions/escrow-kick/index.ts:30-47 | The reads of one run, in order. It is empty exactly when an argument is missing. Otherwise it starts with `nextTokenId()` on the escrow-NFT address, is only that read when it fails, and has at most two reads per id below `nextTokenId`. The properties module proves that the per-id reads are an ascending prefix with `canUnlock` only for live ids (TraceIsAscendingPrefix), stop at a kick (NoReadPastKick) or at a failed read (ReadFailureEndsRun), and cover every id when nothing is kicked (NoCallsReadsEveryId). |
| EscrowKick.Scanned | web3-functions/escrow-kick/index.ts:42 | A run visits at most `nextTokenId` ids. |
| EscrowKick.OnRun | web3-functions/escrow-kick/index.ts:17-69 | A missing or empty `escrowToken` gives "escrowToken is not provided" with no read. Otherwise a missing or empty `escrowNft` gives "escrowNft is not provided" with no read. In every case the outcome is `Evaluate` and the reads issued are exactly `Trace`, in order. |
| EscrowKickProperties.KickIsLowestEligible | web3-functions/escrow-kick/index.ts:42-61 | A `canExec: true` result holds exactly one call, to the escrow-token address, with payload `kick(k)`. Here k < `nextTokenId`, k is live with `canUnlock(k)` true, and every lower id was read without error and is empty or not unlockable. |
| EscrowKickProperties.LowestEligibleIsKicked | web3-functions/escrow-kick/index.ts:42-61 | Converse: if k < `nextTokenId` is eligible and every lower id reads fine and is not eligible, the run proposes exactly `kick(k)`. |
| EscrowKickProperties.NoCallsIffNothingEligible | web3-functions/escrow-kick/index.ts:42-65 | The result is "Done, No calls to kick()" iff both arguments are given, `nextTokenId` answers, and every id below it (none when it is 0) reads fine and is not eligible. |
| EscrowKickProperties.RpcFailureIff | web3-functions/escrow-kick/index.ts:30-68 | The result is "Rpc call failed" with error e iff both arguments are given and one of two things holds. Either `nextTokenId()` raised e, or some id below it is the first whose read raised e, after all lower ids read fine and were not eligible. |
| EscrowKickProperties.AgreesWithFirstEligible | web3-functions/escrow-kick/index.ts:42-65 | When every read answers, the run kicks exactly `FirstEligible`, the lowest eligible id. If there is none, it answers "Done, No calls to kick()". |
| EscrowKickProperties.TraceIsAscendingPrefix | web3-functions/escrow-kick/index.ts:33-47 | The first read is `nextTokenId()` on the escrow-NFT address. Every later read goes to the escrow-token address and is for an id in the scanned prefix. The reads come in strictly ascending id order, each read once; the only two reads about one id are its `positions` read followed by its `canUnlock` read. Every id in that prefix has `positions(i)` read. `canUnlock(i)` is read exactly for live ids, right after their `positions(i)`. |
| EscrowKickProperties.NoReadPastKick | web3-functions/escrow-kick/index.ts:47-61 | When the run proposes `kick(k)`, its last read is `canUnlock(k)` and no id above k is read. |
| EscrowKickProperties.NoCallsReadsEveryId | web3-functions/escrow-kick/index.ts:42-65 | When nothing is kicked, `positions(i)` was read for every id below `nextTokenId`. With `nextTokenId` 0, the only read is `nextTokenId()`. |
| EscrowKickProperties.ReadFailureEndsRun | web3-functions/escrow-kick/index.ts:30-68 | A read that raises e is the last read of the run, and the run reports "Rpc call failed" with e. Conversely, such a result ends on a read that raised e, and every earlier read answered. |
| EscrowKickProperties.ScenarioKicksIdTwo | web3-functions/escrow-kick/index.ts:42-61 | Example with `nextTokenId` 3: id 0 is live but locked, id 1 is empty, id 2 is unlockable. The run kicks id 2. It reads `canUnlock` for ids 0 and 2 only. |

## Left out

- The ethers `Contract` objects, the provider from `multiChainProvider.default()` and the async/await transport are not modelled. Each read is an oracle in `ChainReads.Chain` that answers or raises an error.
- A `Contract` constructor that throws on a malformed address is modelled as the reads to that address failing. The escrow-token contract is built right after `nextTokenId()` is read, but its first read is `positions(0)`. So with `nextTokenId` 0 and an unusable escrow-token address, the model answers "Done, No calls to kick()", whereas a throwing constructor would give "Rpc call failed".
- ABI encoding by `encodeFunctionData` is a library call. The payload is the abstract `Kick(tokenId)`, not hex bytes.
- The ABI string constants at the top of the file are not modelled. They are only data for that library.
- The `console.log` diagnostics are not modelled.
- The text of the "Rpc call failed with error …" message is not modelled. The model keeps the error value of the failed read.
- Chain integers are unbounded naturals. `unlockTime.gt(0)` is `> 0`. The JavaScript comparison `i < nextTokenId` is modelled as exact comparison. In JavaScript, `<` turns the BigNumber into its decimal string with `toString()` and then turns that string into a JavaScript number. That last step loses precision above 2^53, which the model does not capture.
- A user argument is modelled as absent or a string. Non-string values passed through the `as string` cast are not modelled.
- The external scheduler that re-invokes the function, retries it and executes the proposed call is not modelled.
