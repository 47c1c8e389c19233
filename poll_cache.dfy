/**
 * The process-wide read-through cache in front of the poll contract: `polls` is
 * absent or the (titles, options) pair of `getAllPolls`, and `results` maps a poll
 * index to the vote counts `getResults(index)` returned. `show_polls` and
 * `show_results` fill it on a miss; confirmed mutations invalidate it.
 */
module PollCache {
  import opened Wrappers

  /** The pair returned by the contract's `getAllPolls`. */
  datatype PollSet = PollSet(titles: seq<string>, options: seq<seq<string>>)

  /**
   * What the contract answers to read calls while one request is served: `getAllPolls`
   * and each `getResults(i)` return a value or raise. A later request may meet another
   * `Ledger` (new polls, new votes, or a transport error that has gone away).
   */
  datatype Ledger = Ledger(allPolls: Result<PollSet>, tallies: nat -> Result<seq<int>>)

  /** A read call made on the contract. */
  datatype LedgerCall = GetAllPolls | GetResults(index: nat)

  /** The contents of the cache dictionary. */
  datatype CacheState = CacheState(polls: Option<PollSet>, results: map<nat, seq<int>>)

  /** The cache as the process starts, and after a confirmed poll creation. */
  const Empty := CacheState(None, map[])

  /** What a read handler does to a cache state: the new state, its reply, and the ledger calls it made, in order. */
  datatype Read<T> = Read(state: CacheState, reply: Result<T>, calls: seq<LedgerCall>)

  /** The outcome of the loop over the titles in `show_results`. */
  datatype Scanned = Scanned(results: map<nat, seq<int>>, reply: Result<map<string, seq<int>>>, calls: seq<LedgerCall>)

  // ---------------------------------------------------------------------------
  // The read paths, on values.

  /**
   * `show_polls`: a hit serves the cached pair and changes nothing; a miss calls
   * `getAllPolls`, and stores and answers what it returns.
   */
  function ReadPolls(s: CacheState, l: Ledger): (o: Read<PollSet>)
    ensures o.reply == if s.polls.Some? then Ok(s.polls.value) else l.allPolls
    ensures s.polls.Some? ==> o.state == s
    ensures o.state.results == s.results
    ensures o.calls == if s.polls.None? then [GetAllPolls] else []
    ensures o.reply.Ok? ==> o.state.polls == Some(o.reply.value)
    ensures o.reply.Err? ==> o.state == s && s.polls.None? && l.allPolls == Err(o.reply.error)
  {
    if s.polls.Some? then Read(s, Ok(s.polls.value), [])
    else match l.allPolls
      case Err(e) => Read(s, Err(e), [GetAllPolls])
      case Ok(p) => Read(s.(polls := Some(p)), Ok(p), [GetAllPolls])
  }

  /**
   * The loop `for i, title in enumerate(titles)` of `show_results`, from index `i` on,
   * with the cached `results` and the reply `out` built so far.
   */
  function Scan(titles: seq<string>, l: Ledger, i: nat, results: map<nat, seq<int>>,
                out: map<string, seq<int>>): (r: Scanned)
    requires i <= |titles|
    ensures |r.calls| <= |titles| - i
    ensures r.reply.Err? ==> |r.calls| > 0
    ensures results.Keys <= r.results.Keys
    decreases |titles| - i
  {
    if i == |titles| then Scanned(results, Ok(out), [])
    else if i in results then Scan(titles, l, i + 1, results, out[titles[i] := results[i]])
    else match l.tallies(i)
      case Err(e) => Scanned(results, Err(e), [GetResults(i)])
      case Ok(v) =>
        var r := Scan(titles, l, i + 1, results[i := v], out[titles[i] := v]);
        r.(calls := [GetResults(i)] + r.calls)
  }

  /** `show_results`: fill `polls` as `show_polls` does, then every missing `results[i]`. */
  function ReadResults(s: CacheState, l: Ledger): (o: Read<map<string, seq<int>>>)
    ensures o.state.polls == ReadPolls(s, l).state.polls
    ensures ReadPolls(s, l).reply.Err? ==> o.state == s && o.reply == Err(l.allPolls.error) && o.calls == [GetAllPolls]
    ensures o.reply.Ok? ==> o.state.polls.Some? && s.results.Keys <= o.state.results.Keys
  {
    var p := ReadPolls(s, l);
    match p.reply
      case Err(e) => Read(p.state, Err(e), p.calls)
      case Ok(polls) =>
        var r := Scan(polls.titles, l, 0, p.state.results, map[]);
        Read(p.state.(results := r.results), r.reply, p.calls + r.calls)
  }

  /**
   * The reply built from results for indices `0..k-1`: `titles[j]` is mapped to
   * `results[j]` for increasing `j`, so of equal titles the highest index wins.
   */
  function TitleMap(titles: seq<string>, results: map<nat, seq<int>>, k: nat): (m: map<string, seq<int>>)
    requires k <= |titles|
    requires forall j :: 0 <= j < k ==> j in results
    ensures forall j :: 0 <= j < k ==> titles[j] in m
    ensures k > 0 ==> m[titles[k - 1]] == results[k - 1]
  {
    if k == 0 then map[] else TitleMap(titles, results, k - 1)[titles[k - 1] := results[k - 1]]
  }

  // ---------------------------------------------------------------------------
  // Invalidation, on values.

  /** `del cache["results"][poll_index]` when the key is present. */
  function DropResult(s: CacheState, index: Option<nat>): (t: CacheState)
    ensures t.polls == s.polls
    ensures index.Some? ==> index.value !in t.results
    ensures forall j :: j in s.results && index != Some(j) ==> j in t.results && t.results[j] == s.results[j]
    ensures t.results.Keys <= s.results.Keys
  {
    if index.Some? && index.value in s.results then s.(results := s.results - {index.value}) else s
  }

  // ---------------------------------------------------------------------------
  // Properties of the reply.

  /** Every title of the first `k` is a key of the reply, and nothing else is. */
  lemma {:induction false} TitleMapKeys(titles: seq<string>, results: map<nat, seq<int>>, k: nat)
    requires k <= |titles|
    requires forall j :: 0 <= j < k ==> j in results
    ensures TitleMap(titles, results, k).Keys == set j | 0 <= j < k :: titles[j]
  {
    if k > 0 {
      TitleMapKeys(titles, results, k - 1);
      assert (set j | 0 <= j < k :: titles[j]) == (set j | 0 <= j < k - 1 :: titles[j]) + {titles[k - 1]};
    }
  }

  /** `titles[j]` is answered with `results[j]` when no later title below `k` equals it. */
  lemma {:induction false} TitleMapLastWins(titles: seq<string>, results: map<nat, seq<int>>, k: nat, j: nat)
    requires j < k <= |titles|
    requires forall i :: 0 <= i < k ==> i in results
    requires forall i :: j < i < k ==> titles[i] != titles[j]
    ensures titles[j] in TitleMap(titles, results, k)
    ensures TitleMap(titles, results, k)[titles[j]] == results[j]
  {
    if j < k - 1 {
      TitleMapLastWins(titles, results, k - 1, j);
    }
  }

  /** The reply depends only on the results of indices below `k`. */
  lemma {:induction false} TitleMapAgrees(titles: seq<string>, r1: map<nat, seq<int>>, r2: map<nat, seq<int>>, k: nat)
    requires k <= |titles|
    requires forall j :: 0 <= j < k ==> j in r1 && j in r2 && r1[j] == r2[j]
    ensures TitleMap(titles, r1, k) == TitleMap(titles, r2, k)
  {
    if k > 0 {
      TitleMapAgrees(titles, r1, r2, k - 1);
    }
  }

  // ---------------------------------------------------------------------------
  // Properties of the loop.

  /** The loop never removes or overwrites a cached entry, and adds only what the ledger returned for an index in range. */
  lemma {:induction false} ScanKeepsCached(titles: seq<string>, l: Ledger, i: nat, results: map<nat, seq<int>>,
                                           out: map<string, seq<int>>)
    requires i <= |titles|
    ensures var r := Scan(titles, l, i, results, out);
      forall k :: k in results ==> k in r.results && r.results[k] == results[k]
    ensures var r := Scan(titles, l, i, results, out);
      forall k :: k in r.results && k !in results ==> i <= k < |titles| && l.tallies(k) == Ok(r.results[k])
    decreases |titles| - i
  {
    if i < |titles| {
      ScanStep(titles, l, i, results, out);
      if i in results {
        ScanKeepsCached(titles, l, i + 1, results, out[titles[i] := results[i]]);
      } else if l.tallies(i).Ok? {
        var v := l.tallies(i).value;
        ScanKeepsCached(titles, l, i + 1, results[i := v], out[titles[i] := v]);
      }
    }
  }

  /** A key cached before the loop is still cached after it. */
  lemma {:induction false} ScanKeepsKey(titles: seq<string>, l: Ledger, i: nat, results: map<nat, seq<int>>,
                                        out: map<string, seq<int>>, k: nat)
    requires i <= |titles| && k in results
    ensures k in Scan(titles, l, i, results, out).results
    decreases |titles| - i
  {
    if i < |titles| {
      if i in results {
        ScanKeepsKey(titles, l, i + 1, results, out[titles[i] := results[i]], k);
      } else if l.tallies(i).Ok? {
        var v := l.tallies(i).value;
        ScanKeepsKey(titles, l, i + 1, results[i := v], out[titles[i] := v], k);
      }
    }
  }

  /** Every call is a `getResults(k)` for an index `lo <= k < hi` missing from `results`. */
  predicate FetchesMissing(calls: seq<LedgerCall>, lo: nat, hi: nat, results: map<nat, seq<int>>)
  {
    forall n :: 0 <= n < |calls| ==>
      calls[n].GetResults? && lo <= calls[n].index < hi && calls[n].index !in results
  }

  /** The calls are `getResults` calls on strictly increasing indices, so no index is fetched twice. */
  predicate Increasing(calls: seq<LedgerCall>)
  {
    forall m, n :: 0 <= m < n < |calls| ==>
      calls[m].GetResults? && calls[n].GetResults? && calls[m].index < calls[n].index
  }

  /** The loop calls `getResults(k)` only for indices in range that were missing, each once, in increasing order. */
  lemma {:induction false} ScanCallsOnlyMissing(titles: seq<string>, l: Ledger, i: nat, results: map<nat, seq<int>>,
                                                out: map<string, seq<int>>)
    requires i <= |titles|
    ensures FetchesMissing(Scan(titles, l, i, results, out).calls, i, |titles|, results)
    ensures Increasing(Scan(titles, l, i, results, out).calls)
    decreases |titles| - i
  {
    if i < |titles| {
      if i in results {
        ScanCallsOnlyMissing(titles, l, i + 1, results, out[titles[i] := results[i]]);
      } else if l.tallies(i).Ok? {
        var v := l.tallies(i).value;
        ScanCallsOnlyMissing(titles, l, i + 1, results[i := v], out[titles[i] := v]);
        var rest := Scan(titles, l, i + 1, results[i := v], out[titles[i] := v]).calls;
        var calls := [GetResults(i)] + rest;
        assert Scan(titles, l, i, results, out).calls == calls;
        forall n | 0 <= n < |calls|
          ensures calls[n].GetResults? && i <= calls[n].index < |titles| && calls[n].index !in results
        {
          if n > 0 { assert calls[n] == rest[n - 1]; }
        }
        forall m, n | 0 <= m < n < |calls|
          ensures calls[m].GetResults? && calls[n].GetResults? && calls[m].index < calls[n].index
        {
          assert calls[n] == rest[n - 1];
          if m > 0 { assert calls[m] == rest[m - 1]; }
        }
      }
    }
  }

  /** When the loop completes, every index in range is cached and every missing one was fetched. */
  lemma {:induction false} ScanCompletes(titles: seq<string>, l: Ledger, i: nat, results: map<nat, seq<int>>,
                                         out: map<string, seq<int>>)
    requires i <= |titles|
    ensures var r := Scan(titles, l, i, results, out);
      r.reply.Ok? ==> forall k :: i <= k < |titles| ==> k in r.results
    ensures var r := Scan(titles, l, i, results, out);
      r.reply.Ok? ==> forall k :: i <= k < |titles| && k !in results ==> GetResults(k) in r.calls
    decreases |titles| - i
  {
    if i < |titles| {
      if i in results {
        ScanCompletes(titles, l, i + 1, results, out[titles[i] := results[i]]);
        ScanKeepsKey(titles, l, i + 1, results, out[titles[i] := results[i]], i);
      } else if l.tallies(i).Ok? {
        var v := l.tallies(i).value;
        ScanCompletes(titles, l, i + 1, results[i := v], out[titles[i] := v]);
        ScanKeepsKey(titles, l, i + 1, results[i := v], out[titles[i] := v], i);
      }
    }
  }

  /**
   * The loop `r`, started at `i`, has failed at its last call: that call is a
   * `getResults(k)` that raised with the reply's text, `k` is in range and stays
   * uncached, and every index from `i` up to `k` is cached.
   */
  predicate StoppedAtLastCall(r: Scanned, i: nat, n: nat, l: Ledger)
    requires r.reply.Err?
  {
    |r.calls| > 0 && r.calls[|r.calls| - 1].GetResults? &&
    var k := r.calls[|r.calls| - 1].index;
    i <= k < n && k !in r.results && l.tallies(k) == Err(r.reply.error) &&
    forall j :: i <= j < k ==> j in r.results
  }

  /**
   * When a `getResults` raises, the loop stops there: the last call is the one that
   * raised, its index stays missing, and every index before it is cached.
   */
  lemma {:induction false} ScanStopsAtFailure(titles: seq<string>, l: Ledger, i: nat, results: map<nat, seq<int>>,
                                              out: map<string, seq<int>>)
    requires i <= |titles|
    ensures var r := Scan(titles, l, i, results, out);
      r.reply.Err? ==> StoppedAtLastCall(r, i, |titles|, l)
    decreases |titles| - i
  {
    if i < |titles| {
      var r := Scan(titles, l, i, results, out);
      if i in results {
        var out' := out[titles[i] := results[i]];
        ScanStopsAtFailure(titles, l, i + 1, results, out');
        ScanKeepsKey(titles, l, i + 1, results, out', i);
        assert r == Scan(titles, l, i + 1, results, out');
      } else if l.tallies(i).Ok? {
        var v := l.tallies(i).value;
        var results', out' := results[i := v], out[titles[i] := v];
        var rest := Scan(titles, l, i + 1, results', out');
        ScanStopsAtFailure(titles, l, i + 1, results', out');
        ScanKeepsKey(titles, l, i + 1, results', out', i);
        assert r == rest.(calls := [GetResults(i)] + rest.calls);
        if r.reply.Err? {
          StoppedAfterFetch(r, rest, i, |titles|, l);
        }
      }
    }
  }

  /** Prefixing the fetch of `i`, whose tally the rest of the loop keeps, to a loop that stopped at or after `i + 1` gives one that stopped at or after `i`. */
  lemma StoppedAfterFetch(r: Scanned, rest: Scanned, i: nat, n: nat, l: Ledger)
    requires rest.reply.Err? && StoppedAtLastCall(rest, i + 1, n, l) && i in rest.results
    requires r == rest.(calls := [GetResults(i)] + rest.calls)
    ensures StoppedAtLastCall(r, i, n, l)
  {
    assert r.calls[|r.calls| - 1] == rest.calls[|rest.calls| - 1];
  }

  /** One turn of the loop at index `i`. */
  lemma ScanStep(titles: seq<string>, l: Ledger, i: nat, results: map<nat, seq<int>>, out: map<string, seq<int>>)
    requires i < |titles|
    ensures i in results ==>
      Scan(titles, l, i, results, out) == Scan(titles, l, i + 1, results, out[titles[i] := results[i]])
    ensures i !in results && l.tallies(i).Err? ==>
      Scan(titles, l, i, results, out) == Scanned(results, Err(l.tallies(i).error), [GetResults(i)])
    ensures i !in results && l.tallies(i).Ok? ==>
      var v := l.tallies(i).value;
      var r := Scan(titles, l, i + 1, results[i := v], out[titles[i] := v]);
      Scan(titles, l, i, results, out) == r.(calls := [GetResults(i)] + r.calls)
  {
  }

  /** A completed loop, started with the reply for the indices before `i`, replies with `TitleMap` of the final results. */
  lemma {:induction false} ScanReply(titles: seq<string>, l: Ledger, i: nat, results: map<nat, seq<int>>,
                                     out: map<string, seq<int>>)
    requires i <= |titles|
    requires forall j :: 0 <= j < i ==> j in results
    requires out == TitleMap(titles, results, i)
    ensures var r := Scan(titles, l, i, results, out);
      r.reply.Ok? ==> (
        (forall k :: 0 <= k < |titles| ==> k in r.results) &&
        r.reply.value == TitleMap(titles, r.results, |titles|))
    decreases |titles| - i
  {
    if i < |titles| {
      ScanStep(titles, l, i, results, out);
      if i in results {
        ScanReply(titles, l, i + 1, results, out[titles[i] := results[i]]);
      } else if l.tallies(i).Ok? {
        var v := l.tallies(i).value;
        var results' := results[i := v];
        TitleMapAgrees(titles, results, results', i);
        ScanReply(titles, l, i + 1, results', out[titles[i] := v]);
      }
    }
  }

  // ---------------------------------------------------------------------------
  // Properties of the handlers.

  /** A second `show_polls` with no mutation in between makes no ledger call and answers the same, whatever the ledger does. */
  lemma ReadPollsIdempotent(s: CacheState, l: Ledger, l': Ledger)
    requires ReadPolls(s, l).reply.Ok?
    ensures var o := ReadPolls(s, l);
      ReadPolls(o.state, l') == Read(o.state, o.reply, [])
  {
  }

  /**
   * On success, `show_results` leaves `polls` present (the same one if it was already
   * cached), every index of the titles cached, and every entry that was already
   * cached unchanged.
   */
  lemma ReadResultsFillsOnlyMissing(s: CacheState, l: Ledger)
    ensures var o := ReadResults(s, l);
      o.reply.Ok? ==> (
        o.state.polls.Some? && (s.polls.Some? ==> o.state.polls == s.polls) &&
        (forall k :: 0 <= k < |o.state.polls.value.titles| ==> k in o.state.results) &&
        (forall k :: k in s.results ==> k in o.state.results && o.state.results[k] == s.results[k]))
  {
    var p := ReadPolls(s, l);
    if p.reply.Ok? {
      var titles := p.reply.value.titles;
      ScanKeepsCached(titles, l, 0, s.results, map[]);
      ScanCompletes(titles, l, 0, s.results, map[]);
    }
  }

  /**
   * `show_results` calls `getAllPolls` only if `polls` was absent, then `getResults(k)`
   * only for indices `k` of the titles that were not cached, each at most once and in
   * increasing order; on success it has called it for every such index.
   */
  lemma ReadResultsCallsOnlyMissing(s: CacheState, l: Ledger)
    ensures var o := ReadResults(s, l);
      var polled := if s.polls.None? then [GetAllPolls] else [];
      |polled| <= |o.calls| && o.calls[..|polled|] == polled &&
      Increasing(o.calls[|polled|..]) &&
      (o.state.polls.Some? ==> FetchesMissing(o.calls[|polled|..], 0, |o.state.polls.value.titles|, s.results))
    ensures var o := ReadResults(s, l);
      o.reply.Ok? ==> forall k :: 0 <= k < |o.state.polls.value.titles| && k !in s.results ==> GetResults(k) in o.calls
  {
    var p := ReadPolls(s, l);
    var o := ReadResults(s, l);
    if p.reply.Ok? {
      var titles := p.reply.value.titles;
      ScanCallsOnlyMissing(titles, l, 0, s.results, map[]);
      ScanCompletes(titles, l, 0, s.results, map[]);
      var r := Scan(titles, l, 0, s.results, map[]);
      assert o.calls == p.calls + r.calls;
      assert o.calls[|p.calls|..] == r.calls;
      assert o.calls[..|p.calls|] == p.calls;
      assert forall c :: c in r.calls ==> c in o.calls;
    } else {
      assert o.calls[|p.calls|..] == [];
    }
  }

  /** On success the reply maps each title to the results cached for its index; of equal titles the highest index wins. */
  lemma ReadResultsAlignment(s: CacheState, l: Ledger, j: nat)
    ensures var o := ReadResults(s, l);
      o.reply.Ok? ==> (
        var titles := o.state.polls.value.titles;
        (forall k :: 0 <= k < |titles| ==> k in o.state.results) &&
        o.reply.value.Keys == (set k | 0 <= k < |titles| :: titles[k]) &&
        (j < |titles| && (forall k :: j < k < |titles| ==> titles[k] != titles[j]) ==>
          titles[j] in o.reply.value && o.reply.value[titles[j]] == o.state.results[j]))
  {
    var p := ReadPolls(s, l);
    if p.reply.Ok? {
      var titles := p.reply.value.titles;
      ScanReply(titles, l, 0, p.state.results, map[]);
      var o := ReadResults(s, l);
      if o.reply.Ok? {
        TitleMapKeys(titles, o.state.results, |titles|);
        if j < |titles| && (forall k :: j < k < |titles| ==> titles[k] != titles[j]) {
          TitleMapLastWins(titles, o.state.results, |titles|, j);
        }
      }
    }
  }

  /**
   * A failed `show_results` removes and overwrites nothing: cached results and a
   * cached `polls` stay as they were; if `getAllPolls` raised, the cache is unchanged;
   * if a `getResults(k)` raised, the entries fetched before it stay cached.
   */
  lemma ReadResultsFailureKeeps(s: CacheState, l: Ledger)
    ensures var o := ReadResults(s, l);
      o.reply.Err? ==> (
        (forall k :: k in s.results ==> k in o.state.results && o.state.results[k] == s.results[k]) &&
        (s.polls.Some? ==> o.state.polls == s.polls) &&
        (o.state.polls.None? ==> o.state == s && l.allPolls == Err(o.reply.error)) &&
        (o.state.polls.Some? ==>
          |o.calls| > 0 && o.calls[|o.calls| - 1].GetResults? &&
          var k := o.calls[|o.calls| - 1].index;
          k < |o.state.polls.value.titles| && k !in o.state.results && l.tallies(k) == Err(o.reply.error) &&
          forall j :: 0 <= j < k ==> j in o.state.results))
  {
    var p := ReadPolls(s, l);
    if p.reply.Ok? {
      var titles := p.reply.value.titles;
      ScanKeepsCached(titles, l, 0, s.results, map[]);
      ScanStopsAtFailure(titles, l, 0, s.results, map[]);
      var r := Scan(titles, l, 0, s.results, map[]);
      var o := ReadResults(s, l);
      if o.reply.Err? && o.state.polls.Some? {
        assert o.calls == p.calls + r.calls;
        assert o.calls[|o.calls| - 1] == r.calls[|r.calls| - 1];
      }
    }
  }

  /** When every index from `i` on is cached, the loop calls nothing, changes nothing and succeeds. */
  lemma {:induction false} ScanAllCached(titles: seq<string>, l: Ledger, i: nat, results: map<nat, seq<int>>,
                                         out: map<string, seq<int>>)
    requires i <= |titles|
    requires forall k :: i <= k < |titles| ==> k in results
    ensures var r := Scan(titles, l, i, results, out);
      r.results == results && r.calls == [] && r.reply.Ok?
    decreases |titles| - i
  {
    if i < |titles| {
      ScanAllCached(titles, l, i + 1, results, out[titles[i] := results[i]]);
    }
  }

  /**
   * After a successful `show_results`, a second one with no mutation in between
   * makes no ledger call, changes nothing and replies the same, whatever the ledger does.
   */
  lemma ReadResultsIdempotent(s: CacheState, l: Ledger, l': Ledger)
    requires ReadResults(s, l).reply.Ok?
    ensures var o := ReadResults(s, l);
      ReadResults(o.state, l') == Read(o.state, o.reply, [])
  {
    var o := ReadResults(s, l);
    var p := ReadPolls(s, l);
    var titles := p.reply.value.titles;
    ScanReply(titles, l, 0, p.state.results, map[]);
    ScanAllCached(titles, l', 0, o.state.results, map[]);
    ScanReply(titles, l', 0, o.state.results, map[]);
  }

  // ---------------------------------------------------------------------------
  // The cache never serves what the ledger no longer says.

  /** Every cached value is what the ledger currently answers for it. */
  ghost predicate Coherent(s: CacheState, l: Ledger)
  {
    (s.polls.Some? ==> l.allPolls == Ok(s.polls.value)) &&
    forall k :: k in s.results ==> l.tallies(k) == Ok(s.results[k])
  }

  /** The ledger `l'` answers as `l` does, except perhaps for the results of poll `index`. */
  ghost predicate SameExceptResults(l: Ledger, l': Ledger, index: Option<nat>)
  {
    l'.allPolls == l.allPolls && forall k: nat :: index != Some(k) ==> l'.tallies(k) == l.tallies(k)
  }

  /** With results coherent with the ledger, the loop replies as it would with any other coherent results. */
  lemma {:induction false} ScanReplyCoherent(titles: seq<string>, l: Ledger, i: nat, r1: map<nat, seq<int>>,
                                             r2: map<nat, seq<int>>, out: map<string, seq<int>>)
    requires i <= |titles|
    requires forall k :: k in r1 ==> l.tallies(k) == Ok(r1[k])
    requires forall k :: k in r2 ==> l.tallies(k) == Ok(r2[k])
    ensures Scan(titles, l, i, r1, out).reply == Scan(titles, l, i, r2, out).reply
    ensures forall k :: k in Scan(titles, l, i, r1, out).results ==> l.tallies(k) == Ok(Scan(titles, l, i, r1, out).results[k])
    decreases |titles| - i
  {
    if i < |titles| {
      match l.tallies(i)
      case Err(_) =>
        if i in r1 || i in r2 { assert false; }
      case Ok(v) =>
        var r1' := if i in r1 then r1 else r1[i := v];
        var r2' := if i in r2 then r2 else r2[i := v];
        ScanReplyCoherent(titles, l, i + 1, r1', r2', out[titles[i] := v]);
    }
  }

  /**
   * A coherent cache answers `show_polls` and `show_results` exactly as an empty one
   * would, and stays coherent: no read serves a stale value.
   */
  lemma CoherentCacheServesLedger(s: CacheState, l: Ledger)
    requires Coherent(s, l)
    ensures ReadPolls(s, l).reply == ReadPolls(Empty, l).reply
    ensures ReadResults(s, l).reply == ReadResults(Empty, l).reply
    ensures Coherent(ReadPolls(s, l).state, l)
    ensures Coherent(ReadResults(s, l).state, l)
  {
    var p := ReadPolls(s, l);
    if p.reply.Ok? {
      var titles := p.reply.value.titles;
      ScanReplyCoherent(titles, l, 0, s.results, map[], map[]);
    }
  }

  /** The empty cache of a new process or a confirmed `createPoll` is coherent with any ledger. */
  lemma EmptyCoherent(l: Ledger)
    ensures Coherent(Empty, l)
  {
  }

  /**
   * Removing the results of the poll voted on keeps the cache coherent with the
   * ledger after the vote, which differs at most in that poll's results.
   */
  lemma DropResultCoherent(s: CacheState, l: Ledger, l': Ledger, index: Option<nat>)
    requires Coherent(s, l)
    requires SameExceptResults(l, l', index)
    ensures Coherent(DropResult(s, index), l')
  {
  }

  // ---------------------------------------------------------------------------
  // The global cache dictionary, updated in place.

  class Cache {
    var polls: Option<PollSet>
    var results: map<nat, seq<int>>
    /** Every read call the handlers have made on the ledger, in order. */
    ghost var calls: seq<LedgerCall>

    function State(): CacheState
      reads this
    {
      CacheState(polls, results)
    }

    /** `cache = {"polls": None, "results": {}}`. */
    constructor ()
      ensures State() == Empty && calls == []
    {
      polls := None;
      results := map[];
      calls := [];
    }

    /** `show_polls`. */
    method ShowPolls(l: Ledger) returns (reply: Result<PollSet>)
      modifies this
      ensures var o := ReadPolls(old(State()), l);
        State() == o.state && reply == o.reply && calls == old(calls) + o.calls
    {
      if polls.None? {
        calls := calls + [GetAllPolls];
        match l.allPolls {
          case Err(e) =>
            return Err(e);
          case Ok(p) =>
            polls := Some(p);
        }
      } else {
        assert calls + [] == calls;
      }
      reply := Ok(polls.value);
    }

    /** `show_results`: fill `polls` as `show_polls` does, then run the loop over its titles. */
    method ShowResults(l: Ledger) returns (reply: Result<map<string, seq<int>>>)
      modifies this
      ensures var o := ReadResults(old(State()), l);
        State() == o.state && reply == o.reply && calls == old(calls) + o.calls
    {
      ghost var polled := ReadPolls(State(), l);
      if polls.None? {
        calls := calls + [GetAllPolls];
        match l.allPolls {
          case Err(e) =>
            return Err(e);
          case Ok(p) =>
            polls := Some(p);
        }
      }
      assert calls == old(calls) + polled.calls;
      ghost var mid := calls;
      reply := FillResults(polls.value.titles, l);
      assert calls == mid + Scan(polls.value.titles, l, 0, old(results), map[]).calls;
    }

    /** The loop `for i, title in enumerate(titles)` of `show_results`. */
    method FillResults(titles: seq<string>, l: Ledger) returns (reply: Result<map<string, seq<int>>>)
      modifies this
      ensures var r := Scan(titles, l, 0, old(results), map[]);
        polls == old(polls) && results == r.results && reply == r.reply && calls == old(calls) + r.calls
    {
      ghost var whole := Scan(titles, l, 0, results, map[]);
      var out := map[];
      var i := 0;
      while i < |titles|
        invariant i <= |titles|
        invariant polls == old(polls)
        invariant Scan(titles, l, i, results, out).results == whole.results
        invariant Scan(titles, l, i, results, out).reply == whole.reply
        invariant old(calls) + whole.calls == calls + Scan(titles, l, i, results, out).calls
      {
        ScanStep(titles, l, i, results, out);
        if i !in results {
          calls := calls + [GetResults(i)];
          match l.tallies(i) {
            case Err(e) =>
              return Err(e);
            case Ok(v) =>
              results := results[i := v];
          }
        }
        out := out[titles[i] := results[i]];
        i := i + 1;
      }
      assert calls + [] == calls;
      reply := Ok(out);
    }

    /** A confirmed `createPoll`: `polls` set to None and `results` to `{}`. */
    method InvalidateAll()
      modifies this
      ensures State() == Empty && calls == old(calls)
    {
      polls := None;
      results := map[];
    }

    /** A confirmed `vote`: the entry of the poll voted on is deleted if present. */
    method InvalidateResult(index: Option<nat>)
      modifies this
      ensures State() == DropResult(old(State()), index) && calls == old(calls)
    {
      if index.Some? && index.value in results {
        results := results - {index.value};
      }
    }
  }
}
