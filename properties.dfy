/** What a run of the escrow-kick callback guarantees, proved about the
    specification `Evaluate` / `Trace` that `OnRun` is proved to follow. */
module EscrowKickProperties {
  import opened ChainReads
  import opened EscrowKick

  // ---------------------------------------------------------------------------
  // Which outcome a run produces

  /** A proposed kick is for the lowest eligible id below `nextTokenId`: it is
      a single call to the escrow-token contract, and every lower id was read
      without error and is empty or cannot be unlocked. */
  lemma KickIsLowestEligible(args: UserArgs, chain: Chain)
    requires Evaluate(args, chain).CanExec?
    ensures Provided(args.escrowToken) && Provided(args.escrowNft)
    ensures chain.nextTokenId(args.escrowNft.value).Ok?
    ensures var calls := Evaluate(args, chain).callData;
            var token := args.escrowToken.value;
            var k := calls[0].data.tokenId;
            |calls| == 1 && calls[0].to == token &&
            k < chain.nextTokenId(args.escrowNft.value).value &&
            Eligible(chain, token, k) &&
            forall j :: 0 <= j < k ==> ReadsSucceed(chain, token, j) && !Eligible(chain, token, j)
  {
    var token := args.escrowToken.value;
    var n := chain.nextTokenId(args.escrowNft.value).value;
    var k := FirstStop(chain, token, 0, n).value;
    assert Inspect(chain, token, k).Kickable?;
    SkippedBelow(chain, token, k);
  }

  /** Conversely, the lowest eligible id is kicked once every read below it
      succeeds. */
  lemma LowestEligibleIsKicked(args: UserArgs, chain: Chain, k: nat)
    requires Provided(args.escrowToken) && Provided(args.escrowNft)
    requires chain.nextTokenId(args.escrowNft.value).Ok?
    requires k < chain.nextTokenId(args.escrowNft.value).value
    requires Eligible(chain, args.escrowToken.value, k)
    requires forall j :: 0 <= j < k ==>
               ReadsSucceed(chain, args.escrowToken.value, j) && !Eligible(chain, args.escrowToken.value, j)
    ensures Evaluate(args, chain) == CanExec([CallData(args.escrowToken.value, Kick(k))])
  {
    var token := args.escrowToken.value;
    var n := chain.nextTokenId(args.escrowNft.value).value;
    assert Inspect(chain, token, k).Kickable?;
    SkippedBelow(chain, token, k);
    StopsAt(chain, token, n, k);
  }

  /** A run ends with "Done, No calls to kick()" exactly when both arguments
      are given and every id below `nextTokenId` (none, when it is 0) was read
      without error and is empty or cannot be unlocked. */
  lemma NoCallsIffNothingEligible(args: UserArgs, chain: Chain)
    ensures Evaluate(args, chain) == CannotExec(NoCallsToKick) <==>
              Provided(args.escrowToken) && Provided(args.escrowNft) &&
              chain.nextTokenId(args.escrowNft.value).Ok? &&
              forall j :: 0 <= j < chain.nextTokenId(args.escrowNft.value).value ==>
                ReadsSucceed(chain, args.escrowToken.value, j) && !Eligible(chain, args.escrowToken.value, j)
  {
    if Provided(args.escrowToken) && Provided(args.escrowNft) && chain.nextTokenId(args.escrowNft.value).Ok? {
      var token := args.escrowToken.value;
      var n := chain.nextTokenId(args.escrowNft.value).value;
      SkippedBelow(chain, token, n);
      match FirstStop(chain, token, 0, n)
      case None =>
      case Some(k) =>
        assert !(ReadsSucceed(chain, token, k) && !Eligible(chain, token, k));
    }
  }

  /** A run ends with "Rpc call failed" carrying error `e` exactly when both
      arguments are given and either `nextTokenId()` raised `e`, or some id
      `m` below it is the first whose read raised `e`, after every lower id
      was read without error and found empty or not unlockable. */
  lemma RpcFailureIff(args: UserArgs, chain: Chain, e: string)
    ensures Evaluate(args, chain) == CannotExec(RpcCallFailed(e)) <==>
              Provided(args.escrowToken) && Provided(args.escrowNft) &&
              (chain.nextTokenId(args.escrowNft.value) == Err(e) ||
               (chain.nextTokenId(args.escrowNft.value).Ok? &&
                exists m :: 0 <= m < chain.nextTokenId(args.escrowNft.value).value &&
                  FailsAt(chain, args.escrowToken.value, m, e) &&
                  forall j :: 0 <= j < m ==>
                    ReadsSucceed(chain, args.escrowToken.value, j) && !Eligible(chain, args.escrowToken.value, j)))
  {
    if Provided(args.escrowToken) && Provided(args.escrowNft) && chain.nextTokenId(args.escrowNft.value).Ok? {
      var token := args.escrowToken.value;
      var n := chain.nextTokenId(args.escrowNft.value).value;
      if Evaluate(args, chain) == CannotExec(RpcCallFailed(e)) {
        var k := FirstStop(chain, token, 0, n).value;
        assert FailsAt(chain, token, k, e);
        SkippedBelow(chain, token, k);
      }
      if m :| 0 <= m < n && FailsAt(chain, token, m, e) &&
              forall j :: 0 <= j < m ==> ReadsSucceed(chain, token, j) && !Eligible(chain, token, j) {
        SkippedBelow(chain, token, m);
        assert Inspect(chain, token, m) == Failed(e);
        StopsAt(chain, token, n, m);
      }
    }
  }

  /** When no read fails, a run kicks exactly `FirstEligible`, the lowest
      eligible id, and otherwise proposes nothing. */
  lemma AgreesWithFirstEligible(args: UserArgs, chain: Chain)
    requires Provided(args.escrowToken) && Provided(args.escrowNft)
    requires chain.nextTokenId(args.escrowNft.value).Ok?
    requires forall j :: 0 <= j < chain.nextTokenId(args.escrowNft.value).value ==>
               ReadsSucceed(chain, args.escrowToken.value, j)
    ensures Evaluate(args, chain) ==
              match FirstEligible(chain, args.escrowToken.value, 0, chain.nextTokenId(args.escrowNft.value).value)
              case Some(k) => CanExec([CallData(args.escrowToken.value, Kick(k))])
              case None => CannotExec(NoCallsToKick)
  {
    var token := args.escrowToken.value;
    var n := chain.nextTokenId(args.escrowNft.value).value;
    match FirstEligible(chain, token, 0, n)
    case Some(k) => LowestEligibleIsKicked(args, chain, k);
    case None => NoCallsIffNothingEligible(args, chain);
  }

  /** `FirstStop` picks the first id that is not skipped. */
  lemma StopsAt(chain: Chain, token: string, n: nat, k: nat)
    requires k < n && !Inspect(chain, token, k).Skip?
    requires forall j :: 0 <= j < k ==> Inspect(chain, token, j).Skip?
    ensures FirstStop(chain, token, 0, n) == Some(k)
  {
  }

  /** Below `k` the scan skips exactly the ids read without error that are
      empty or cannot be unlocked. */
  lemma SkippedBelow(chain: Chain, token: string, k: nat)
    ensures (forall j :: 0 <= j < k ==> Inspect(chain, token, j).Skip?) <==>
            (forall j :: 0 <= j < k ==> ReadsSucceed(chain, token, j) && !Eligible(chain, token, j))
  {
    forall j | 0 <= j < k
      ensures Inspect(chain, token, j).Skip? <==> ReadsSucceed(chain, token, j) && !Eligible(chain, token, j)
    {
    }
  }

  // ---------------------------------------------------------------------------
  // Which reads a run issues

  /** Every read in `s` is a read of the escrow-token contract at `token`
      about an id below `m`. */
  ghost predicate TokenReadsBelow(s: seq<Query>, token: string, m: nat)
  {
    forall p :: 0 <= p < |s| ==> !s[p].NextTokenId? && s[p].token == token && s[p].id < m
  }

  /** The per-id reads in `s` come in ascending id order and none repeats: a
      later read is about a higher id, or about the same id when it is the
      `canUnlock` read that follows that id's `positions` read. */
  ghost predicate AscendingIds(s: seq<Query>)
  {
    forall p, q :: 0 <= p < q < |s| && !s[p].NextTokenId? && !s[q].NextTokenId? ==>
      s[p].id < s[q].id || (s[p].id == s[q].id && s[p].Positions? && s[q].CanUnlock?)
  }

  /** In `s`, `canUnlock(i)` is read only for a live id `i`, right after its
      `positions(i)`. */
  ghost predicate CanUnlockAfterLivePosition(chain: Chain, token: string, s: seq<Query>)
  {
    forall p :: 0 <= p < |s| && s[p].CanUnlock? ==>
      0 < p && s[p - 1] == Positions(token, s[p].id) && Live(chain, token, s[p].id)
  }

  /** `s` reads `positions(i)` for every id below `m`, and `canUnlock(i)`
      for exactly the live ones. */
  ghost predicate CoversIds(chain: Chain, token: string, s: seq<Query>, m: nat)
  {
    forall i :: 0 <= i < m ==> Positions(token, i) in s && (CanUnlock(token, i) in s <==> Live(chain, token, i))
  }

  /** `ScanQueries(m)` reads only the escrow-token contract, about ids below `m`. */
  lemma {:induction false} ScanQueriesBounded(chain: Chain, token: string, m: nat)
    ensures TokenReadsBelow(ScanQueries(chain, token, m), token, m)
  {
    if m > 0 {
      ScanQueriesBounded(chain, token, m - 1);
      var s := ScanQueries(chain, token, m);
      var prev := ScanQueries(chain, token, m - 1);
      var last := IdQueries(chain, token, m - 1);
      assert s == prev + last;
      forall p | 0 <= p < |s|
        ensures !s[p].NextTokenId? && s[p].token == token && s[p].id < m
      {
        if p < |prev| {
          assert s[p] == prev[p];
        } else {
          assert s[p] == last[p - |prev|];
        }
      }
    }
  }

  /** `ScanQueries(m)` reads the ids in ascending order. */
  lemma {:induction false} ScanQueriesAscending(chain: Chain, token: string, m: nat)
    ensures AscendingIds(ScanQueries(chain, token, m))
  {
    if m > 0 {
      ScanQueriesAscending(chain, token, m - 1);
      ScanQueriesBounded(chain, token, m - 1);
      var s := ScanQueries(chain, token, m);
      var prev := ScanQueries(chain, token, m - 1);
      var last := IdQueries(chain, token, m - 1);
      assert s == prev + last;
      forall p, q | 0 <= p < q < |s| && !s[p].NextTokenId? && !s[q].NextTokenId?
        ensures s[p].id < s[q].id || (s[p].id == s[q].id && s[p].Positions? && s[q].CanUnlock?)
      {
        if q < |prev| {
          assert s[p] == prev[p] && s[q] == prev[q];
        } else if p < |prev| {
          assert s[p] == prev[p] && s[q] == last[q - |prev|];
        } else {
          assert s[p] == last[p - |prev|] && s[q] == last[q - |prev|];
          assert p == |prev| && q == |prev| + 1;
        }
      }
    }
  }

  /** `ScanQueries(m)` reads `canUnlock(i)` only for live ids, right after `positions(i)`. */
  lemma {:induction false} ScanQueriesCanUnlockAfterLive(chain: Chain, token: string, m: nat)
    ensures CanUnlockAfterLivePosition(chain, token, ScanQueries(chain, token, m))
  {
    if m > 0 {
      ScanQueriesCanUnlockAfterLive(chain, token, m - 1);
      var s := ScanQueries(chain, token, m);
      var prev := ScanQueries(chain, token, m - 1);
      var last := IdQueries(chain, token, m - 1);
      assert s == prev + last;
      forall p | 0 <= p < |s| && s[p].CanUnlock?
        ensures 0 < p && s[p - 1] == Positions(token, s[p].id) && Live(chain, token, s[p].id)
      {
        if p < |prev| {
          assert s[p] == prev[p];
          assert s[p - 1] == prev[p - 1];
        } else {
          assert p == |prev| + 1 && s[p] == last[1] && s[p - 1] == last[0];
        }
      }
    }
  }

  /** `ScanQueries(m)` reads every id below `m`, and `canUnlock` for exactly the live ones. */
  lemma {:induction false} ScanQueriesCover(chain: Chain, token: string, m: nat)
    ensures CoversIds(chain, token, ScanQueries(chain, token, m), m)
  {
    if m > 0 {
      ScanQueriesCover(chain, token, m - 1);
      ScanQueriesBounded(chain, token, m - 1);
      var s := ScanQueries(chain, token, m);
      var prev := ScanQueries(chain, token, m - 1);
      var last := IdQueries(chain, token, m - 1);
      assert s == prev + last;
      forall i | 0 <= i < m
        ensures Positions(token, i) in s && (CanUnlock(token, i) in s <==> Live(chain, token, i))
      {
        if i < m - 1 {
          assert Positions(token, i) in prev;
          assert CanUnlock(token, i) !in last;
        } else {
          assert last[0] == Positions(token, i);
          assert CanUnlock(token, i) !in prev;
        }
      }
    }
  }

  /** Every read for ids that the scan skips answers. */
  lemma {:induction false} ScanQueriesAnswer(chain: Chain, token: string, m: nat)
    requires forall j :: 0 <= j < m ==> Inspect(chain, token, j).Skip?
    ensures forall p :: 0 <= p < |ScanQueries(chain, token, m)| ==> Answers(chain, ScanQueries(chain, token, m)[p])
  {
    if m > 0 {
      ScanQueriesAnswer(chain, token, m - 1);
      var s := ScanQueries(chain, token, m);
      var prev := ScanQueries(chain, token, m - 1);
      var last := IdQueries(chain, token, m - 1);
      assert s == prev + last;
      assert Inspect(chain, token, m - 1).Skip?;
      forall p | 0 <= p < |s|
        ensures Answers(chain, s[p])
      {
        if p < |prev| {
          assert s[p] == prev[p];
        } else {
          assert s[p] == last[p - |prev|];
        }
      }
    }
  }

  /** A run with both arguments given first reads `nextTokenId()` from the
      escrow-NFT contract, then reads the escrow-token contract about an
      ascending prefix `0 .. Scanned-1` of the ids below it: `positions(i)`
      for each, and `canUnlock(i)` exactly for the live ones, right after
      their `positions(i)`. */
  lemma TraceIsAscendingPrefix(args: UserArgs, chain: Chain)
    requires Provided(args.escrowToken) && Provided(args.escrowNft)
    requires chain.nextTokenId(args.escrowNft.value).Ok?
    ensures var tr := Trace(args, chain);
            var token := args.escrowToken.value;
            var m := Scanned(chain, token, chain.nextTokenId(args.escrowNft.value).value);
            |tr| > 0 && tr[0] == NextTokenId(args.escrowNft.value) &&
            TokenReadsBelow(tr[1..], token, m) &&
            AscendingIds(tr[1..]) &&
            CanUnlockAfterLivePosition(chain, token, tr[1..]) &&
            CoversIds(chain, token, tr[1..], m)
  {
    var token := args.escrowToken.value;
    var m := Scanned(chain, token, chain.nextTokenId(args.escrowNft.value).value);
    ScanQueriesBounded(chain, token, m);
    ScanQueriesAscending(chain, token, m);
    ScanQueriesCanUnlockAfterLive(chain, token, m);
    ScanQueriesCover(chain, token, m);
    assert Trace(args, chain)[1..] == ScanQueries(chain, token, m);
  }

  /** A run that proposes `kick(k)` has just read `canUnlock(k)` and read
      nothing about any id above `k`. */
  lemma NoReadPastKick(args: UserArgs, chain: Chain)
    requires Evaluate(args, chain).CanExec?
    ensures var tr := Trace(args, chain);
            var k := Evaluate(args, chain).callData[0].data.tokenId;
            |tr| > 1 && tr[|tr| - 1] == CanUnlock(args.escrowToken.value, k) &&
            TokenReadsBelow(tr[1..], args.escrowToken.value, k + 1)
  {
    var token := args.escrowToken.value;
    var n := chain.nextTokenId(args.escrowNft.value).value;
    var k := FirstStop(chain, token, 0, n).value;
    assert Inspect(chain, token, k).Kickable?;
    assert Scanned(chain, token, n) == k + 1;
    var scan := ScanQueries(chain, token, k + 1);
    ScanQueriesBounded(chain, token, k + 1);
    assert IdQueries(chain, token, k) == [Positions(token, k), CanUnlock(token, k)];
    assert scan == ScanQueries(chain, token, k) + [Positions(token, k), CanUnlock(token, k)];
    var tr := Trace(args, chain);
    assert tr == [NextTokenId(args.escrowNft.value)] + scan;
    assert tr[1..] == scan;
  }

  /** A run that finds nothing to kick has read `positions(i)` for every id
      below `nextTokenId`; with `nextTokenId` 0 its only read is
      `nextTokenId()`. */
  lemma NoCallsReadsEveryId(args: UserArgs, chain: Chain)
    requires Evaluate(args, chain) == CannotExec(NoCallsToKick)
    ensures chain.nextTokenId(args.escrowNft.value).Ok?
    ensures var tr := Trace(args, chain);
            var n := chain.nextTokenId(args.escrowNft.value).value;
            CoversIds(chain, args.escrowToken.value, tr[1..], n) &&
            (n == 0 ==> tr == [NextTokenId(args.escrowNft.value)])
  {
    var n := chain.nextTokenId(args.escrowNft.value).value;
    TraceIsAscendingPrefix(args, chain);
    assert Scanned(chain, args.escrowToken.value, n) == n;
  }

  /** In the reads `tr` of a run with outcome `o`, a read that raises `e` is
      the last one and `o` reports `e`; conversely, when `o` reports "Rpc call
      failed" with `e`, the last read raised `e` and every earlier read
      answered. */
  ghost predicate FailureEndsReads(chain: Chain, tr: seq<Query>, o: Outcome)
  {
    (forall p, e :: 0 <= p < |tr| && Fails(chain, tr[p], e) ==>
       p == |tr| - 1 && o == CannotExec(RpcCallFailed(e))) &&
    (forall e :: o == CannotExec(RpcCallFailed(e)) ==>
       |tr| > 0 && Fails(chain, tr[|tr| - 1], e) &&
       forall p :: 0 <= p < |tr| - 1 ==> Answers(chain, tr[p]))
  }

  /** A failed read ends the run: it is the last read issued and the run
      reports its error. Conversely a run that reports "Rpc call failed" with
      error `e` ends on a read that raised `e`, and every earlier read
      answered. */
  lemma ReadFailureEndsRun(args: UserArgs, chain: Chain)
    ensures FailureEndsReads(chain, Trace(args, chain), Evaluate(args, chain))
  {
    var tr := Trace(args, chain);
    var o := Evaluate(args, chain);
    if !Provided(args.escrowToken) || !Provided(args.escrowNft) {
      assert tr == [] && !o.message.RpcCallFailed?;
    } else if chain.nextTokenId(args.escrowNft.value).Err? {
      assert tr == [NextTokenId(args.escrowNft.value)];
      assert o == CannotExec(RpcCallFailed(chain.nextTokenId(args.escrowNft.value).error));
    } else {
      var token := args.escrowToken.value;
      var nft := args.escrowNft.value;
      var n := chain.nextTokenId(nft).value;
      match FirstStop(chain, token, 0, n)
      case None =>
        ScanQueriesAnswer(chain, token, n);
        assert o == CannotExec(NoCallsToKick);
        assert tr == [NextTokenId(nft)] + ScanQueries(chain, token, n);
        assert forall p :: 0 <= p < |tr| ==> Answers(chain, tr[p]);
      case Some(k) =>
        ScanQueriesAnswer(chain, token, k);
        var before := [NextTokenId(nft)] + ScanQueries(chain, token, k);
        assert forall p :: 0 <= p < |before| ==> Answers(chain, before[p]);
        assert tr == before + IdQueries(chain, token, k);
        StoppedRunEndsOnFailure(chain, token, k, before, tr, o);
    }
  }

  /** The case of `ReadFailureEndsRun` where the scan stops at id `k`. */
  lemma StoppedRunEndsOnFailure(chain: Chain, token: string, k: nat, before: seq<Query>, tr: seq<Query>, o: Outcome)
    requires !Inspect(chain, token, k).Skip?
    requires forall p :: 0 <= p < |before| ==> Answers(chain, before[p])
    requires tr == before + IdQueries(chain, token, k)
    requires o == if Inspect(chain, token, k).Kickable? then CanExec([CallData(token, Kick(k))])
                  else CannotExec(RpcCallFailed(Inspect(chain, token, k).error))
    ensures FailureEndsReads(chain, tr, o)
  {
    var v := Inspect(chain, token, k);
    if v.Kickable? {
      assert forall p :: 0 <= p < |tr| ==> Answers(chain, tr[p]);
    } else if chain.positions(token, k).Err? {
      assert tr == before + [Positions(token, k)];
    } else {
      assert tr == before + [Positions(token, k), CanUnlock(token, k)];
      assert Answers(chain, tr[|tr| - 2]);
    }
  }

  // ---------------------------------------------------------------------------
  // A worked run

  /** Three ids: id 0 holds a position that cannot be unlocked yet, id 1 is
      empty and id 2 can be unlocked, so the run kicks id 2 after reading
      `canUnlock` for ids 0 and 2 only. */
  lemma ScenarioKicksIdTwo()
    ensures var chain := Chain(
              nft => if nft == "nft" then Ok(3) else Err("no contract"),
              (token, i) =>
                if token != "token" then Err("no contract")
                else if i == 0 then Ok(Position(100, 0, 500))
                else if i == 2 then Ok(Position(50, 10, 900))
                else Ok(Position(0, 0, 0)),
              (token, i) => if token != "token" then Err("no contract") else Ok(i == 2));
            var args := UserArgs(Some("token"), Some("nft"));
            Evaluate(args, chain) == CanExec([CallData("token", Kick(2))]) &&
            Trace(args, chain) == [NextTokenId("nft"),
                                   Positions("token", 0), CanUnlock("token", 0),
                                   Positions("token", 1),
                                   Positions("token", 2), CanUnlock("token", 2)]
  {
  }
}
