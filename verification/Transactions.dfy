/** Transactions, chain configuration, fee market pricing and pre-execution validation. */
module Transactions {
  import opened Arithmetic
  import opened Bytes
  import opened World
  import opened Evm

  datatype AccessListEntry = AccessListEntry(address: Address, storageKeys: seq<Word>)

  datatype Signature = Signature(v: nat, r: Word, s: Word)

  datatype LegacyTransaction = LegacyTransaction(
    nonce: Word, gasPrice: Word, gasLimit: Word, to: Option<Address>, value: Word, data: seq<Byte>,
    chainId: Option<nat>, signature: Option<Signature>)

  datatype Eip1559Transaction = Eip1559Transaction(
    chainId: nat, nonce: Word, maxPriorityFee: Word, maxFee: Word, gasLimit: Word, to: Option<Address>, value: Word,
    data: seq<Byte>, accessList: seq<AccessListEntry>, signature: Option<Signature>)

  datatype ProofType = Groth16 | Plonk | Stark

  datatype Proof = Proof(proofType: ProofType, data: seq<Byte>)

  datatype Transaction =
    | Legacy(legacy: LegacyTransaction)
    | Eip1559(typed: Eip1559Transaction)
    | Zk(typed: Eip1559Transaction, proof: Proof, publicInputs: seq<Word>)
  {
    function Nonce(): Word { if Legacy? then legacy.nonce else typed.nonce }
    function GasLimit(): Word { if Legacy? then legacy.gasLimit else typed.gasLimit }
    function To(): Option<Address> { if Legacy? then legacy.to else typed.to }
    function Value(): Word { if Legacy? then legacy.value else typed.value }
    function Data(): seq<Byte> { if Legacy? then legacy.data else typed.data }
    function TypeByte(): Option<Byte> { if Legacy? then None else if Eip1559? then Some(0x02) else Some(0x7E) }
  }

  datatype FeeModel = LegacyFees | Eip1559Fees

  datatype ZkTiming = PreExecution | DuringExecution

  /** What verifying a proof costs, by type of proof; a type without a price cannot be charged. */
  datatype ZkGasModel = ZkGasModel(baseCosts: map<ProofType, nat>, perByteCosts: map<ProofType, nat>)

  const DEFAULT_ZK_GAS_MODEL := ZkGasModel(
    map[Groth16 := 180_000, Plonk := 220_000, Stark := 350_000], map[Groth16 := 8, Plonk := 10, Stark := 12])

  datatype ChainConfig = ChainConfig(
    chainId: nat, feeModel: FeeModel, supportLegacy: bool, supportEip1559: bool, supportZk: bool,
    allowUnprotectedLegacy: bool, enforceLowS: bool, gasRefundQuotient: nat, burnBaseFee: bool, zkTiming: ZkTiming,
    elasticityMultiplier: nat, baseFeeMaxChangeDenominator: nat, gasLimitBoundDivisor: nat, initialBaseFee: nat,
    maxExtraDataBytes: nat, zkGasModel: ZkGasModel)
  {
    /** What the constructor insists on. */
    predicate Valid() {
      && chainId >= 1 && gasRefundQuotient >= 1 && elasticityMultiplier >= 1
      && baseFeeMaxChangeDenominator >= 1 && gasLimitBoundDivisor >= 1
    }
  }

  datatype BlockEnv = BlockEnv(
    number: nat, timestamp: nat, gasLimit: nat, coinbase: Address, baseFee: Option<nat>, chainId: nat)

  /** Answers of code outside this model: recovered senders (`None` when recovery raises) and proof verdicts (`None`
      when no registry is given). */
  datatype Externals = Externals(
    recover: (Transaction, bool) -> Option<Address>, verify: Option<(Proof, seq<Word>) -> bool>, oracle: Oracle)

  datatype TxError =
    | UnsupportedType
    | WrongChain
    | InvalidSignature
    | NonceTooLow
    | NonceTooHigh
    | FeeRuleViolation
    | NoZkPrice
    | IntrinsicGasTooLow
    | InsufficientBalance
    | InvalidZkProof
    | AssertionFailed
    | BlockGasExceeded
    | InvalidBlock

  datatype TxResult<+T> = Accept(value: T) | Reject(error: TxError) {
    predicate IsFailure() { Reject? }
    function PropagateFailure<U>(): TxResult<U>
      requires Reject?
    {
      Reject(error)
    }
    function Extract(): T
      requires Accept?
    {
      value
    }
  }

  // ---------------------------------------------------------------------------------------------
  // Gas and fees
  // ---------------------------------------------------------------------------------------------

  function DataGas(data: seq<Byte>): nat {
    if data == [] then 0 else (if data[0] == 0 then 4 else 16) + DataGas(data[1..])
  }

  function AccessListGas(entries: seq<AccessListEntry>): nat {
    if entries == [] then 0 else 2_400 + 1_900 * |entries[0].storageKeys| + AccessListGas(entries[1..])
  }

  function IntrinsicGas(tx: Transaction): nat {
    21_000 + (if tx.To().None? then 32_000 else 0) + DataGas(tx.Data())
    + if tx.Legacy? then 0 else AccessListGas(tx.typed.accessList)
  }

  function ZkVerificationGas(tx: Transaction, model: ZkGasModel): TxResult<nat> {
    if !tx.Zk? then Accept(0)
    else if tx.proof.proofType !in model.baseCosts || tx.proof.proofType !in model.perByteCosts then Reject(NoZkPrice)
    else
      var base: nat, perByte: nat := model.baseCosts[tx.proof.proofType], model.perByteCosts[tx.proof.proofType];
      MulLe(perByte, 0, |tx.proof.data|);
      Accept(base + perByte * |tx.proof.data|)
  }

  datatype GasPricing = GasPricing(maxUpfront: nat, effective: nat, priority: nat, baseFee: nat)

  /** Whether the transaction pays the block's base fee; a legacy one on a legacy chain does not. */
  predicate PaysBaseFee(tx: Transaction, config: ChainConfig) {
    !tx.Legacy? || config.feeModel == Eip1559Fees
  }

  /** The most a transaction offers for a unit of gas. */
  function Offer(tx: Transaction): Word {
    if tx.Legacy? then tx.legacy.gasPrice else tx.typed.maxFee
  }

  /** The offer covers the base fee, and the tip offered is part of it. */
  predicate OffersEnough(tx: Transaction, env: BlockEnv, config: ChainConfig) {
    && (PaysBaseFee(tx, config) ==> env.baseFee.Some? && env.baseFee.value <= Offer(tx))
    && (!tx.Legacy? ==> tx.typed.maxPriorityFee <= tx.typed.maxFee)
  }

  /** A price within the offer that leaves no larger tip than was offered. */
  predicate Acceptable(tx: Transaction, baseFee: nat, price: nat) {
    price <= Offer(tx) && (!tx.Legacy? ==> price <= baseFee + tx.typed.maxPriorityFee)
  }

  /** The price is the largest acceptable one; what exceeds the base fee of the block is the tip. */
  ghost predicate FairPrice(tx: Transaction, env: BlockEnv, config: ChainConfig, p: GasPricing) {
    && p.baseFee == (if PaysBaseFee(tx, config) && env.baseFee.Some? then env.baseFee.value else 0)
    && p.maxUpfront == Offer(tx) && p.priority == p.effective - p.baseFee
    && Acceptable(tx, p.baseFee, p.effective)
    && forall price: nat :: Acceptable(tx, p.baseFee, price) ==> price <= p.effective
  }

  /** A transaction is priced exactly if it offers enough, and then fairly. */
  function PricingFor(tx: Transaction, env: BlockEnv, config: ChainConfig): (r: TxResult<GasPricing>)
    ensures r.Accept? <==> OffersEnough(tx, env, config)
    ensures r.Accept? ==> FairPrice(tx, env, config, r.value)
    ensures r.Accept? ==>
      && r.value.effective == r.value.priority + r.value.baseFee
      && r.value.effective <= r.value.maxUpfront
  {
    if tx.Legacy? then
      var price := tx.legacy.gasPrice;
      if config.feeModel == Eip1559Fees then
        if env.baseFee.None? || price < env.baseFee.value then Reject(FeeRuleViolation)
        else Accept(GasPricing(price, price, price - env.baseFee.value, env.baseFee.value))
      else Accept(GasPricing(price, price, price, 0))
    else
      var maxFee, maxPriority := tx.typed.maxFee, tx.typed.maxPriorityFee;
      if env.baseFee.None? || maxFee < maxPriority || maxFee < env.baseFee.value then Reject(FeeRuleViolation)
      else
        var baseFee := env.baseFee.value;
        var priority := if maxPriority < maxFee - baseFee then maxPriority else maxFee - baseFee;
        Accept(GasPricing(maxFee, baseFee + priority, priority, baseFee))
  }

  // ---------------------------------------------------------------------------------------------
  // Validation
  // ---------------------------------------------------------------------------------------------

  datatype Validated = Validated(sender: Address, preExecutionGas: nat, pricing: GasPricing, zkDeferred: bool)

  function CheckType(tx: Transaction, config: ChainConfig): TxResult<()> {
    var supported :=
      match tx
      case Legacy(_) => config.supportLegacy
      case Eip1559(_) => config.supportEip1559
      case Zk(_, _, _) => config.supportZk && config.supportEip1559;
    if supported then Accept(()) else Reject(UnsupportedType)
  }

  function CheckChain(tx: Transaction, config: ChainConfig): TxResult<()> {
    var ok :=
      if tx.Legacy? then
        if tx.legacy.chainId.None? then config.allowUnprotectedLegacy else tx.legacy.chainId.value == config.chainId
      else tx.typed.chainId == config.chainId;
    if ok then Accept(()) else Reject(WrongChain)
  }

  function CheckNonce(tx: Transaction, expected: Word): TxResult<()> {
    if tx.Nonce() < expected then Reject(NonceTooLow)
    else if tx.Nonce() > expected then Reject(NonceTooHigh)
    else Accept(())
  }

  predicate ProofAccepted(x: Externals, tx: Transaction)
    requires tx.Zk?
  {
    x.verify.Some? && x.verify.value(tx.proof, tx.publicInputs)
  }

  /** The checks that need no state, ending with the recovered sender. */
  function RecoverSender(x: Externals, tx: Transaction, config: ChainConfig): TxResult<Address> {
    var _ :- CheckType(tx, config);
    var _ :- CheckChain(tx, config);
    var recovered := x.recover(tx, config.enforceLowS);
    if recovered.None? then Reject(InvalidSignature) else Accept(recovered.value)
  }

  /** The checks against the sender's nonce and balance. */
  function CheckAccount(
    x: Externals, tx: Transaction, sender: Address, nonce: Word, balance: Word, env: BlockEnv, config: ChainConfig)
    : TxResult<Validated>
  {
    var _ :- CheckNonce(tx, nonce);
    var pricing :- PricingFor(tx, env, config);
    var zkGas :- ZkVerificationGas(tx, config.zkGasModel);
    var gas := IntrinsicGas(tx) + zkGas;
    if tx.GasLimit() < gas then Reject(IntrinsicGasTooLow)
    else if tx.GasLimit() > env.gasLimit then Reject(FeeRuleViolation)
    else if balance < pricing.maxUpfront * tx.GasLimit() + tx.Value() then Reject(InsufficientBalance)
    else if tx.Zk? && config.zkTiming == PreExecution && !ProofAccepted(x, tx) then Reject(InvalidZkProof)
    else Accept(Validated(sender, gas, pricing, tx.Zk? && config.zkTiming == DuringExecution))
  }

  function Validate(x: Externals, tx: Transaction, w: State, env: BlockEnv, config: ChainConfig): TxResult<Validated> {
    var sender :- RecoverSender(x, tx, config);
    CheckAccount(x, tx, sender, At(w, sender).nonce, At(w, sender).balance, env, config)
  }

  /** A validated sender can pay the effective price for the whole gas limit and still send the value. */
  lemma ValidatedCanPay(x: Externals, tx: Transaction, w: State, env: BlockEnv, config: ChainConfig)
    ensures match Validate(x, tx, w, env, config)
      case Reject(_) => true
      case Accept(v) =>
        && v.pricing.effective * tx.GasLimit() + tx.Value() <= At(w, v.sender).balance
        && v.preExecutionGas <= tx.GasLimit() <= env.gasLimit
        && v.pricing.effective == v.pricing.priority + v.pricing.baseFee
        && tx.Nonce() == At(w, v.sender).nonce
  {
    match Validate(x, tx, w, env, config)
    case Reject(_) =>
    case Accept(v) => MulLe(tx.GasLimit(), v.pricing.effective, v.pricing.maxUpfront);
  }
}
