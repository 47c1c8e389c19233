/**
 * The mutation pipeline of `create_poll` and `cast_vote`: local validation in a
 * fixed order, then nonce -> build -> sign -> send -> wait for the receipt. The
 * ledger client is an oracle: `LedgerOutcome` says which of its calls raised, or
 * what receipt came back.
 */
module Pipeline {
  import opened Wrappers
  import KeyFormat

  // ---------------------------------------------------------------------------
  // Requests and responses.

  /** The JSON body of `/create_poll`; a missing field is None. */
  datatype CreatePollRequest = CreatePollRequest(
    pollName: Option<string>, options: Option<seq<string>>, account: Option<string>, privateKey: string)

  /** The JSON body of `/cast_vote`; a missing field is None. */
  datatype CastVoteRequest = CastVoteRequest(
    pollIndex: Option<nat>, optionIndex: Option<nat>, account: Option<string>, privateKey: string)

  datatype ValidationError = EmptyPollOrOptions | BadAddress | BadPrivateKey

  /** The `error` text of a 400 reply; it is never the text of an unconfirmed transaction. */
  function Message(e: ValidationError): (m: string)
    ensures |m| > 0 && m != NotConfirmed
  {
    match e
    case EmptyPollOrOptions => "Название опроса или варианты ответа не могут быть пустыми."
    case BadAddress => "Некорректный адрес кошелька."
    case BadPrivateKey => "Некорректный приватный ключ."
  }

  /** The `error` text of the 500 reply for a mined transaction whose status is not 1. */
  const NotConfirmed: string := "Транзакция не была подтверждена."

  /** A client can tell the three validation errors apart from their texts alone. */
  lemma ErrorTextsDistinct(e: ValidationError, e': ValidationError)
    ensures Message(e) == Message(e') <==> e == e'
  {
  }

  datatype Response =
    | Submitted(txHash: string)       // 200 {"success": true, "tx_hash": ...}
    | Rejected(reason: ValidationError) // 400 {"error": Message(reason)}
    | Reverted                        // 500 {"error": NotConfirmed}
    | Failed(message: string)         // 500 {"error": str(e)}, an exception inside the try
    | Crashed(message: string)        // 500 from the framework: the nonce fetch raised outside the try

  function StatusCode(r: Response): (code: int)
    ensures code == 200 <==> r.Submitted?
    ensures code == 400 <==> r.Rejected?
    ensures code == 500 <==> !(r.Submitted? || r.Rejected?)
  {
    match r
    case Submitted(_) => 200
    case Rejected(_) => 400
    case _ => 500
  }

  // ---------------------------------------------------------------------------
  // Transactions.

  datatype TxParams = TxParams(chainId: nat, gas: nat, gasPrice: nat)

  const SepoliaChainId: nat := 11155111
  const Gwei: nat := 1_000_000_000

  /** `createPoll` carries a variable-size option list, so it gets the higher gas ceiling. */
  const CreatePollParams := TxParams(SepoliaChainId, 2_000_000, 25 * Gwei)
  const CastVoteParams := TxParams(SepoliaChainId, 200_000, 20 * Gwei)

  datatype ContractCall =
    | CreatePollTx(name: string, options: seq<string>)
    | VoteTx(pollIndex: Option<nat>, optionIndex: Option<nat>)

  /** The arguments given to `build_transaction`. */
  datatype TxRequest = TxRequest(call: ContractCall, params: TxParams, nonce: nat)

  /** The ledger-client calls inside the `try`, in order. */
  datatype TxStep = BuildTx | SignTx | SendTx | WaitReceipt

  /** A ledger-client call of the pipeline. */
  datatype ClientCall = GetNonce | Step(step: TxStep)

  /** How the ledger client behaves for one request. */
  datatype LedgerOutcome =
    | NonceRaises(message: string)                      // get_transaction_count raised
    | StepRaises(nonce: nat, step: TxStep, message: string) // that step raised
    | Mined(nonce: nat, txHash: string, status: int)    // the receipt arrived; txHash is `to_hex` of what send_raw_transaction returned

  /** The ledger-client calls made up to and including `step`. */
  function CallsThrough(step: TxStep): (calls: seq<ClientCall>)
    ensures |calls| >= 2 && calls[0] == GetNonce && calls[|calls| - 1] == Step(step)
    ensures forall n :: 1 <= n < |calls| ==> calls[n].Step?
  {
    match step
    case BuildTx => [GetNonce, Step(BuildTx)]
    case SignTx => [GetNonce, Step(BuildTx), Step(SignTx)]
    case SendTx => [GetNonce, Step(BuildTx), Step(SignTx), Step(SendTx)]
    case WaitReceipt => [GetNonce, Step(BuildTx), Step(SignTx), Step(SendTx), Step(WaitReceipt)]
  }

  /** What one invocation did: its reply, the ledger-client calls it made, and what it asked to build. */
  datatype Attempt = Attempt(response: Response, calls: seq<ClientCall>, request: Option<TxRequest>)

  /** nonce -> build -> sign -> send -> wait, and the reading of the receipt status. */
  function Submit(call: ContractCall, params: TxParams, outcome: LedgerOutcome): (a: Attempt)
    ensures a.response.Submitted? <==> outcome.Mined? && outcome.status == 1
    ensures a.response.Submitted? ==> a.response.txHash == outcome.txHash
    ensures !a.response.Rejected?
    ensures outcome.NonceRaises? <==> a.request.None?
    ensures a.request.Some? ==> a.request.value == TxRequest(call, params, outcome.nonce)
  {
    match outcome
    case NonceRaises(m) => Attempt(Crashed(m), [GetNonce], None)
    case StepRaises(n, step, m) => Attempt(Failed(m), CallsThrough(step), Some(TxRequest(call, params, n)))
    case Mined(n, h, status) =>
      Attempt(if status == 1 then Submitted(h) else Reverted, CallsThrough(WaitReceipt), Some(TxRequest(call, params, n)))
  }

  // ---------------------------------------------------------------------------
  // create_poll

  /** Python truthiness of an optional string or list: present and non-empty. */
  predicate Given<T>(field: Option<seq<T>>): (ok: bool)
    ensures !ok <==> field == None || field == Some([])
  {
    field.Some? && |field.value| > 0
  }

  /** The checks of `create_poll`, in order; the first that fails is reported. */
  function CreatePollCheck(req: CreatePollRequest, isAddress: Option<string> -> bool): (r: Option<ValidationError>)
    ensures r == Some(EmptyPollOrOptions) <==> !Given(req.pollName) || !Given(req.options)
    ensures r == Some(BadAddress) <==> Given(req.pollName) && Given(req.options) && !isAddress(req.account)
    ensures r == Some(BadPrivateKey) <==>
      Given(req.pollName) && Given(req.options) && isAddress(req.account) && !KeyFormat.IsValidPrivateKey(req.privateKey)
  {
    if !Given(req.pollName) || !Given(req.options) then Some(EmptyPollOrOptions)
    else if !isAddress(req.account) then Some(BadAddress)
    else if !KeyFormat.IsValidPrivateKey(req.privateKey) then Some(BadPrivateKey)
    else None
  }

  /**
   * `create_poll` up to the point where the cache would be invalidated. A rejected
   * request makes no ledger-client call and reports the first failing check; every
   * other request starts with the nonce fetch.
   */
  function CreatePoll(req: CreatePollRequest, isAddress: Option<string> -> bool, outcome: LedgerOutcome): (a: Attempt)
    ensures a.response.Rejected? <==> CreatePollCheck(req, isAddress).Some?
    ensures a.response.Rejected? ==> a.response.reason == CreatePollCheck(req, isAddress).value
    ensures a.calls == [] <==> a.response.Rejected?
    ensures a.calls != [] ==> a.calls[0] == GetNonce
  {
    match CreatePollCheck(req, isAddress)
    case Some(e) => Attempt(Rejected(e), [], None)
    case None => Submit(CreatePollTx(req.pollName.value, req.options.value), CreatePollParams, outcome)
  }

  /**
   * `create_poll` succeeds exactly when the checks pass and the receipt status is 1;
   * a receipt with another status is a revert, an exception in a step is a failure,
   * and what it asks to build is always `createPoll(name, options)` with the fixed parameters.
   */
  lemma CreatePollOutcomes(req: CreatePollRequest, isAddress: Option<string> -> bool, outcome: LedgerOutcome)
    ensures var a := CreatePoll(req, isAddress, outcome);
      (a.response.Submitted? <==> CreatePollCheck(req, isAddress).None? && outcome.Mined? && outcome.status == 1) &&
      (a.response.Submitted? ==> a.response.txHash == outcome.txHash)
    ensures var a := CreatePoll(req, isAddress, outcome);
      CreatePollCheck(req, isAddress).None? ==> (
        (outcome.Mined? && outcome.status != 1 ==> a.response == Reverted) &&
        (outcome.StepRaises? ==> a.response == Failed(outcome.message) && a.calls == CallsThrough(outcome.step)) &&
        (outcome.NonceRaises? ==> a.response == Crashed(outcome.message) && a.calls == [GetNonce]))
    ensures var a := CreatePoll(req, isAddress, outcome);
      a.request.Some? ==>
        a.request.value == TxRequest(CreatePollTx(req.pollName.value, req.options.value), CreatePollParams, outcome.nonce) &&
        a.request.value.params == TxParams(11155111, 2000000, 25000000000)
  {
  }

  // ---------------------------------------------------------------------------
  // cast_vote

  /** The checks of `cast_vote`: the address and then the key; the indices are not looked at. */
  function CastVoteCheck(req: CastVoteRequest, isAddress: Option<string> -> bool): (r: Option<ValidationError>)
    ensures r != Some(EmptyPollOrOptions)
    ensures r == Some(BadAddress) <==> !isAddress(req.account)
    ensures r == Some(BadPrivateKey) <==> isAddress(req.account) && !KeyFormat.IsValidPrivateKey(req.privateKey)
  {
    if !isAddress(req.account) then Some(BadAddress)
    else if !KeyFormat.IsValidPrivateKey(req.privateKey) then Some(BadPrivateKey)
    else None
  }

  /**
   * `cast_vote` up to the point where the cache would be invalidated. A rejected
   * request makes no ledger-client call and reports the failing check; every other
   * request starts with the nonce fetch.
   */
  function CastVote(req: CastVoteRequest, isAddress: Option<string> -> bool, outcome: LedgerOutcome): (a: Attempt)
    ensures a.response.Rejected? <==> CastVoteCheck(req, isAddress).Some?
    ensures a.response.Rejected? ==> a.response.reason == CastVoteCheck(req, isAddress).value
    ensures a.calls == [] <==> a.response.Rejected?
    ensures a.calls != [] ==> a.calls[0] == GetNonce
  {
    match CastVoteCheck(req, isAddress)
    case Some(e) => Attempt(Rejected(e), [], None)
    case None => Submit(VoteTx(req.pollIndex, req.optionIndex), CastVoteParams, outcome)
  }

  /** Whether `cast_vote` is rejected does not depend on the indices, present or not. */
  lemma CastVoteIgnoresIndices(req: CastVoteRequest, req': CastVoteRequest, isAddress: Option<string> -> bool)
    requires req'.account == req.account && req'.privateKey == req.privateKey
    ensures CastVoteCheck(req, isAddress) == CastVoteCheck(req', isAddress)
  {
  }

  /**
   * `cast_vote` succeeds exactly when its checks pass and the receipt status is 1;
   * a receipt with another status is a revert, an exception in a step is a failure,
   * and what it asks to build is always `vote(poll_index, option_index)` with the
   * fixed parameters.
   */
  lemma CastVoteOutcomes(req: CastVoteRequest, isAddress: Option<string> -> bool, outcome: LedgerOutcome)
    ensures var a := CastVote(req, isAddress, outcome);
      (a.response.Submitted? <==> CastVoteCheck(req, isAddress).None? && outcome.Mined? && outcome.status == 1) &&
      (a.response.Submitted? ==> a.response.txHash == outcome.txHash)
    ensures var a := CastVote(req, isAddress, outcome);
      CastVoteCheck(req, isAddress).None? ==> (
        (outcome.Mined? && outcome.status != 1 ==> a.response == Reverted) &&
        (outcome.StepRaises? ==> a.response == Failed(outcome.message) && a.calls == CallsThrough(outcome.step)) &&
        (outcome.NonceRaises? ==> a.response == Crashed(outcome.message) && a.calls == [GetNonce]))
    ensures var a := CastVote(req, isAddress, outcome);
      a.request.Some? ==>
        a.request.value == TxRequest(VoteTx(req.pollIndex, req.optionIndex), CastVoteParams, outcome.nonce) &&
        a.request.value.params == TxParams(11155111, 200000, 20000000000)
  {
  }
}
