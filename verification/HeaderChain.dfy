/** Header validation against the parent and what it keeps along every accepted chain
    (crates/consensus/src/validation/mod.rs, crates/block/src/config.rs). */
module HeaderChain {
  import opened Words
  import opened BaseFee

  type Hash = nat

  datatype Header = Header(
    number: u64, hash: Hash, parentHash: Hash, timestamp: u64, baseFee: Option<u64>, gasLimit: u64, gasUsed: u64)

  datatype ForkCondition = AtBlock(number: u64) | AtTimestamp(time: u64) | Never {
    predicate ActiveAtTimestamp(timestamp: u64) {
      AtTimestamp? && timestamp >= time
    }

    predicate ActiveAt(timestamp: u64, block: u64) {
      ActiveAtTimestamp(timestamp) || (AtBlock? && block >= number)
    }
  }

  datatype ChainSpec = ChainSpec(
    isMainnet: bool, ontake: ForkCondition, pacaya: ForkCondition, shasta: ForkCondition, unzen: ForkCondition)
  {
    predicate IsShastaActive(timestamp: u64) {
      shasta.ActiveAtTimestamp(timestamp)
    }

    function MinBaseFee(): u64 {
      if isMainnet then MAINNET_MIN_BASE_FEE else MIN_BASE_FEE
    }
  }

  datatype SpecId = GENESIS | ONTAKE | PACAYA | SHASTA | UNZEN {
    function Rank(): nat {
      match this
      case GENESIS => 0
      case ONTAKE => 1
      case PACAYA => 2
      case SHASTA => 3
      case UNZEN => 4
    }
  }

  function SpecAt(c: ChainSpec, timestamp: u64, number: u64): SpecId {
    if c.unzen.ActiveAtTimestamp(timestamp) then UNZEN
    else if c.shasta.ActiveAtTimestamp(timestamp) then SHASTA
    else if c.pacaya.ActiveAt(timestamp, number) then PACAYA
    else if c.ontake.ActiveAt(timestamp, number) then ONTAKE
    else GENESIS
  }

  datatype Verdict =
    | Accepted
    | ParentMismatch
    | BaseFeeMissing
    | TimestampIsInPast
    | BaseFeeDiff
    | Underflow      // subtracting a later grandparent timestamp
    | DivideByZero   // computing a fee from a gas limit below the elasticity

  /** Resolves the timestamp of a block by its hash, when it knows the block. */
  type BlockReader = Hash -> Option<u64>

  /** Seconds between a parent and the grandparent it resolves to. */
  function ParentBlockTime(reader: BlockReader, parent: Header): Option<int> {
    match reader(parent.parentHash)
    case None => None
    case Some(t) => Some(parent.timestamp - t)
  }

  /** The base fee a Shasta header has to carry, or the failure computing it. */
  function ExpectedBaseFee(c: ChainSpec, reader: BlockReader, parent: Header, parentFee: u64,
                           headerFee: u64): Result<u64, Verdict> {
    match ParentBlockTime(reader, parent)
    case None => Ok(headerFee)
    case Some(time) =>
      if time < 0 then Err(Underflow)
      else
        match NextBaseFee(parent.number, parent.gasLimit, parent.gasUsed, time, parentFee, c.MinBaseFee())
        case None => Err(DivideByZero)
        case Some(fee) => Ok(fee)
  }

  function Validate(c: ChainSpec, reader: BlockReader, header: Header, parent: Header): Verdict {
    if header.number != parent.number + 1 || header.parentHash != parent.hash then ParentMismatch
    else if header.baseFee.None? then BaseFeeMissing
    else if !c.IsShastaActive(header.timestamp) then
      if header.timestamp < parent.timestamp then TimestampIsInPast else Accepted
    else if header.timestamp <= parent.timestamp then TimestampIsInPast
    else if parent.number == 0 then
      if header.baseFee.value != SHASTA_INITIAL_BASE_FEE then BaseFeeDiff else Accepted
    else if parent.baseFee.None? then BaseFeeMissing
    else
      match ExpectedBaseFee(c, reader, parent, parent.baseFee.value, header.baseFee.value)
      case Err(v) => v
      case Ok(fee) => if header.baseFee.value != fee then BaseFeeDiff else Accepted
  }

  // ----- Accepted chains -----

  /** A chain from genesis, accepted header by header, that the reader does not contradict. */
  ghost predicate AcceptedChain(c: ChainSpec, reader: BlockReader, chain: seq<Header>) {
    && chain != [] && chain[0].number == 0
    && (forall k :: 1 <= k < |chain| ==> Validate(c, reader, chain[k], chain[k - 1]).Accepted?)
    && (forall k :: 0 <= k < |chain| ==> reader(chain[k].hash) in {None, Some(chain[k].timestamp)})
  }

  lemma {:induction false} ChainNumbers(c: ChainSpec, reader: BlockReader, chain: seq<Header>, k: nat)
    requires AcceptedChain(c, reader, chain) && k < |chain|
    ensures chain[k].number == k
  {
    if k > 0 {
      ChainNumbers(c, reader, chain, k - 1);
      assert Validate(c, reader, chain[k], chain[k - 1]).Accepted?;
    }
  }

  /** Timestamps never go back along an accepted chain, and Shasta headers move strictly ahead. */
  lemma {:induction false} TimestampsNeverGoBack(c: ChainSpec, reader: BlockReader, chain: seq<Header>, i: nat, j: nat)
    requires AcceptedChain(c, reader, chain) && i <= j < |chain|
    ensures chain[i].timestamp <= chain[j].timestamp
    ensures i < j && c.IsShastaActive(chain[j].timestamp) ==> chain[i].timestamp < chain[j].timestamp
  {
    if i < j {
      TimestampsNeverGoBack(c, reader, chain, i, j - 1);
      assert Validate(c, reader, chain[j], chain[j - 1]).Accepted?;
    }
  }

  /** Whatever header is offered on top of an accepted chain, the block time does not underflow. */
  lemma NeverUnderflows(c: ChainSpec, reader: BlockReader, chain: seq<Header>, header: Header)
    requires AcceptedChain(c, reader, chain)
    ensures !Validate(c, reader, header, chain[|chain| - 1]).Underflow?
  {
    var k := |chain| - 1;
    ChainNumbers(c, reader, chain, k);
    if k > 0 {
      TimestampsNeverGoBack(c, reader, chain, k - 1, k);
      assert Validate(c, reader, chain[k], chain[k - 1]).Accepted?;
      assert chain[k].parentHash == chain[k - 1].hash;
    }
  }

  lemma LaterSpecIsNoEarlier(c: ChainSpec, timestamp: u64, number: u64, timestamp': u64, number': u64)
    requires timestamp <= timestamp' && number <= number'
    ensures SpecAt(c, timestamp, number).Rank() <= SpecAt(c, timestamp', number').Rank()
  {}

  /** The selected spec never regresses along an accepted chain. */
  lemma SpecNeverRegresses(c: ChainSpec, reader: BlockReader, chain: seq<Header>, i: nat, j: nat)
    requires AcceptedChain(c, reader, chain) && i <= j < |chain|
    ensures SpecAt(c, chain[i].timestamp, chain[i].number).Rank() <=
      SpecAt(c, chain[j].timestamp, chain[j].number).Rank()
  {
    TimestampsNeverGoBack(c, reader, chain, i, j);
    ChainNumbers(c, reader, chain, i);
    ChainNumbers(c, reader, chain, j);
    LaterSpecIsNoEarlier(c, chain[i].timestamp, chain[i].number, chain[j].timestamp, chain[j].number);
  }

  /** Every Shasta header whose grandparent resolves, and the first one after genesis, carries a base
      fee between the network's minimum and one gwei. */
  lemma ShastaFeesAreBounded(c: ChainSpec, reader: BlockReader, chain: seq<Header>, k: nat)
    requires AcceptedChain(c, reader, chain) && 1 <= k < |chain|
    requires c.IsShastaActive(chain[k].timestamp)
    requires k == 1 || reader(chain[k - 2].hash).Some?
    ensures chain[k].baseFee.Some? && c.MinBaseFee() <= chain[k].baseFee.value <= MAX_BASE_FEE
  {
    var header, parent := chain[k], chain[k - 1];
    assert Validate(c, reader, header, parent).Accepted?;
    ChainNumbers(c, reader, chain, k - 1);
    if k > 1 {
      assert Validate(c, reader, parent, chain[k - 2]).Accepted?;
      TimestampsNeverGoBack(c, reader, chain, k - 2, k - 1);
      var time := parent.timestamp - chain[k - 2].timestamp;
      AlwaysWithinClamp(parent.number, parent.gasLimit, parent.gasUsed, time, parent.baseFee.value, c.MinBaseFee());
    }
  }

  /** The base fee a Shasta header on top of the chain may carry. */
  ghost predicate FeeAllowed(c: ChainSpec, reader: BlockReader, chain: seq<Header>, fee: u64)
    requires chain != []
  {
    var parent := chain[|chain| - 1];
    if |chain| == 1 then fee == SHASTA_INITIAL_BASE_FEE
    else
      match reader(chain[|chain| - 2].hash)
      case None => true
      case Some(time) =>
        && parent.baseFee.Some? && time <= parent.timestamp
        && NextBaseFee(parent.number, parent.gasLimit, parent.gasUsed, parent.timestamp - time,
                       parent.baseFee.value, c.MinBaseFee()) == Some(fee)
  }

  /** A Shasta header in its place: on top of the chain, later, and not contradicted by the reader. */
  ghost predicate InPlace(c: ChainSpec, reader: BlockReader, chain: seq<Header>, header: Header)
    requires chain != []
  {
    var parent := chain[|chain| - 1];
    && header.number == parent.number + 1 && header.parentHash == parent.hash
    && header.timestamp > parent.timestamp && c.IsShastaActive(header.timestamp)
    && reader(header.hash) in {None, Some(header.timestamp)}
  }

  /** A Shasta header in its place extends an accepted chain to an accepted chain exactly when it
      carries an allowed fee: the initial one after genesis, any fee while the grandparent does not
      resolve, and otherwise the computed one. */
  lemma ExtendsIffFeeAllowed(c: ChainSpec, reader: BlockReader, chain: seq<Header>, header: Header)
    requires AcceptedChain(c, reader, chain) && InPlace(c, reader, chain, header)
    ensures AcceptedChain(c, reader, chain + [header]) <==>
      header.baseFee.Some? && FeeAllowed(c, reader, chain, header.baseFee.value)
  {
    var k := |chain| - 1;
    ChainNumbers(c, reader, chain, k);
    if k > 0 {
      assert Validate(c, reader, chain[k], chain[k - 1]).Accepted?;
      TimestampsNeverGoBack(c, reader, chain, k - 1, k);
    }
    ExtendsIffValid(c, reader, chain, header);
  }

  lemma ExtendsIffValid(c: ChainSpec, reader: BlockReader, chain: seq<Header>, header: Header)
    requires AcceptedChain(c, reader, chain) && reader(header.hash) in {None, Some(header.timestamp)}
    ensures AcceptedChain(c, reader, chain + [header]) <==>
      Validate(c, reader, header, chain[|chain| - 1]).Accepted?
  {
    var more := chain + [header];
    assert forall k :: 0 <= k < |chain| ==> more[k] == chain[k];
    assert more[|chain|] == header && more[|chain| - 1] == chain[|chain| - 1];
  }

  /** While the grandparent does not resolve, the chain extends with every fee. */
  lemma AnyFeeExtends(c: ChainSpec, reader: BlockReader, chain: seq<Header>, header: Header, fee: u64)
    requires AcceptedChain(c, reader, chain) && InPlace(c, reader, chain, header)
    requires |chain| >= 2 && reader(chain[|chain| - 2].hash).None?
    ensures AcceptedChain(c, reader, chain + [header.(baseFee := Some(fee))])
  {
    ExtendsIffFeeAllowed(c, reader, chain, header.(baseFee := Some(fee)));
  }

  /** Without a resolvable grandparent any base fee passes: the check compares it with itself. */
  lemma UnresolvedGrandparentAcceptsAnyFee(c: ChainSpec, reader: BlockReader, header: Header, parent: Header)
    requires header.number == parent.number + 1 && header.parentHash == parent.hash && parent.number != 0
    requires c.IsShastaActive(header.timestamp) && header.timestamp > parent.timestamp
    requires header.baseFee.Some? && parent.baseFee.Some? && reader(parent.parentHash).None?
    ensures Validate(c, reader, header, parent).Accepted?
  {}
}
