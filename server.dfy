/**
 * The two mutating routes: run the pipeline, and only on a confirmed transaction
 * apply its invalidation to the process-wide cache.
 */
module Server {
  import opened Wrappers
  import opened PollCache
  import opened Pipeline
  import KeyFormat

  /** `/create_poll`: on receipt status 1 the whole cache is cleared; otherwise it is untouched. */
  method HandleCreatePoll(cache: Cache, req: CreatePollRequest, isAddress: Option<string> -> bool,
                          outcome: LedgerOutcome) returns (resp: Response)
    modifies cache
    ensures resp == CreatePoll(req, isAddress, outcome).response
    ensures cache.State() == if resp.Submitted? then Empty else old(cache.State())
    ensures cache.calls == old(cache.calls)
  {
    match CreatePollCheck(req, isAddress) {
      case Some(e) =>
        return Rejected(e);
      case None =>
    }
    var attempt := Submit(CreatePollTx(req.pollName.value, req.options.value), CreatePollParams, outcome);
    if attempt.response.Submitted? {
      cache.InvalidateAll();
    }
    resp := attempt.response;
  }

  /**
   * `/cast_vote`: on receipt status 1 only the results of the poll voted on are
   * dropped; otherwise the cache is untouched.
   */
  method HandleCastVote(cache: Cache, req: CastVoteRequest, isAddress: Option<string> -> bool,
                        outcome: LedgerOutcome) returns (resp: Response)
    modifies cache
    ensures resp == CastVote(req, isAddress, outcome).response
    ensures cache.State() == if resp.Submitted? then DropResult(old(cache.State()), req.pollIndex) else old(cache.State())
    ensures cache.calls == old(cache.calls)
  {
    match CastVoteCheck(req, isAddress) {
      case Some(e) =>
        return Rejected(e);
      case None =>
    }
    var attempt := Submit(VoteTx(req.pollIndex, req.optionIndex), CastVoteParams, outcome);
    if attempt.response.Submitted? {
      cache.InvalidateResult(req.pollIndex);
    }
    resp := attempt.response;
  }

  /** With one poll "Color" listed and results absent, `show_results` fetches poll 0 and answers its tally. */
  lemma ColorResults(polls: PollSet, l: Ledger, votes: seq<int>)
    requires polls == PollSet(["Color"], [["Red", "Blue"]])
    requires l.tallies(0) == Ok(votes)
    ensures ReadResults(CacheState(Some(polls), map[]), l) ==
      Read(CacheState(Some(polls), map[0 := votes]), Ok(map["Color" := votes]), [GetResults(0)])
  {
    assert Scan(polls.titles, l, 1, map[0 := votes], map["Color" := votes]) ==
      Scanned(map[0 := votes], Ok(map["Color" := votes]), []);
  }

  /** With a valid account and key, a mined receipt with status 1 confirms the creation of "Color". */
  lemma CreateColorConfirmed(isAddress: Option<string> -> bool, account: string, key: string)
    requires isAddress(Some(account)) && KeyFormat.IsValidPrivateKey(key)
    ensures CreatePoll(CreatePollRequest(Some("Color"), Some(["Red", "Blue"]), Some(account), key),
                       isAddress, Mined(0, "0xc0", 1)).response.Submitted?
  {
  }

  /** With a valid account and key, a mined receipt with status 1 confirms the vote for option 1 of poll 0. */
  lemma VoteColorConfirmed(isAddress: Option<string> -> bool, account: string, key: string)
    requires isAddress(Some(account)) && KeyFormat.IsValidPrivateKey(key)
    ensures CastVote(CastVoteRequest(Some(0), Some(1), Some(account), key), isAddress, Mined(1, "0xc1", 1)).response.Submitted?
  {
  }

  /**
   * With a valid account and key, a fresh process creates the poll "Color" with options "Red" and "Blue", lists the
   * polls, reads the results, has a vote for option 1 confirmed, and reads the results
   * again: the second read sees the vote, because the confirmed vote dropped the cached tally.
   */
  method ColorScenario(isAddress: Option<string> -> bool, account: string, key: string)
    returns (polls: Result<PollSet>, before: Result<map<string, seq<int>>>, after: Result<map<string, seq<int>>>)
    requires isAddress(Some(account)) && KeyFormat.IsValidPrivateKey(key)
    ensures polls == Ok(PollSet(["Color"], [["Red", "Blue"]]))
    ensures before == Ok(map["Color" := [0, 0]])
    ensures after == Ok(map["Color" := [0, 1]])
  {
    CreateColorConfirmed(isAddress, account, key);
    VoteColorConfirmed(isAddress, account, key);
    var cache := new Cache();
    var color := PollSet(["Color"], [["Red", "Blue"]]);

    var created := HandleCreatePoll(cache, CreatePollRequest(Some("Color"), Some(["Red", "Blue"]), Some(account), key),
                                    isAddress, Mined(0, "0xc0", 1));
    assert created.Submitted?;
    assert cache.State() == Empty;
    var noVotes := Ledger(Ok(color), k => Ok([0, 0]));
    polls := cache.ShowPolls(noVotes);
    assert cache.State() == CacheState(Some(color), map[]);
    ColorResults(color, noVotes, [0, 0]);
    before := cache.ShowResults(noVotes);

    var voted := HandleCastVote(cache, CastVoteRequest(Some(0), Some(1), Some(account), key),
                                isAddress, Mined(1, "0xc1", 1));
    assert voted.Submitted?;
    assert (map[0 := [0, 0]] - {0}) == map[];
    assert cache.State() == CacheState(Some(color), map[]);
    var oneVote := Ledger(Ok(color), k => Ok([0, 1]));
    ColorResults(color, oneVote, [0, 1]);
    after := cache.ShowResults(oneVote);
  }
}
