/**
 * The governance contract: proposals that move from Active to Passed or
 * Failed when voting ends and from Passed to Executed after a delay (or are
 * cancelled by the admin), one vote per voter per proposal weighted by the
 * voter's stored power, a one-day cooldown between a proposer's proposals,
 * a basis-point quorum and pass tally, and a total-power counter kept by
 * deltas.
 */
module Governance {
  import opened Soroban
  import opened MapSum

  datatype ProposalStatus = Active | Passed | Failed | Executed | Cancelled

  /** A proposal without its opaque payload (title, description, target, function name, parameters). */
  datatype Proposal = Proposal(
    id: int,
    proposer: Address,
    votesFor: int,
    votesAgainst: int,
    status: ProposalStatus,
    createdAt: int,
    votingEnd: int,
    executionDelay: int,
    executed: bool
  )

  datatype Vote = Vote(
    proposalId: int,
    voter: Address,
    votePower: int,
    support: bool,
    timestamp: int
  )

  datatype GovernanceConfig = GovernanceConfig(
    admin: Address,
    stakingContract: Address,
    rewardsContract: Address,
    liquidityContract: Address,
    votingPeriod: int,       // seconds
    executionDelay: int,     // seconds
    quorumThreshold: int,    // basis points
    passThreshold: int,      // basis points
    minProposalPower: int,
    emergencyPause: bool
  )

  datatype GovernanceError =
    | NotInitialized
    | AlreadyInitialized
    | Unauthorized
    | ProposalNotFound
    | VotingPeriodEnded
    | VotingPeriodActive
    | InsufficientVotingPower
    | AlreadyVoted
    | ProposalNotPassed
    | ExecutionDelayNotMet
    | AlreadyExecuted
    | ContractPaused
    | InvalidParameters
    | ProposalCooldown

  /** The time a proposer must wait between proposals: one day. */
  const PROPOSAL_COOLDOWN: int := 86400

  /** The largest quorum or pass threshold: 10000 bp, 100%. */
  const MAX_THRESHOLD: int := 10000

  /** The weight a vote adds to proposal `id`'s tally on side `support`. */
  function Weight(id: int, support: bool): Vote -> int {
    (v: Vote) => if v.proposalId == id && v.support == support then v.votePower else 0
  }

  function Power(p: int): int { p }

  // ---------------------------------------------------------------------
  // The finalize tally

  /**
   * Whether an Active proposal whose voting has ended is Passed: quorum needs
   * a positive total power and `total_votes * 10000 / total_power >= quorum`;
   * passing needs quorum, some votes and `votes_for * 10000 / total_votes >= pass`.
   * `None` where an i128 sum or product traps.
   */
  function TallyPasses(votesFor: int, votesAgainst: int, totalPower: int, quorum: int, pass: int): (r: Option<bool>)
    ensures r.Some? && r.value ==> totalPower > 0 && votesFor + votesAgainst > 0
    ensures r.None? ==> !IsI128(votesFor + votesAgainst) || !IsI128((votesFor + votesAgainst) * 10000) || !IsI128(votesFor * 10000)
  {
    var total := votesFor + votesAgainst;
    if !IsI128(total) then None
    else if totalPower > 0 && !IsI128(total * 10000) then None
    else
      var quorumMet := totalPower > 0 && RustDiv(total * 10000, totalPower) >= quorum;
      if !(quorumMet && total > 0) then Some(false)
      else if !IsI128(votesFor * 10000) then None
      else Some(RustDiv(votesFor * 10000, total) >= pass)
  }

  /**
   * Without the truncating divisions: a proposal with non-negative tallies
   * passes exactly when the turnout reaches the quorum share of the total
   * power and the votes for reach the pass share of the turnout.
   */
  lemma TallyMeaning(votesFor: int, votesAgainst: int, totalPower: int, quorum: int, pass: int)
    requires votesFor >= 0 && votesAgainst >= 0
    requires TallyPasses(votesFor, votesAgainst, totalPower, quorum, pass).Some?
    ensures TallyPasses(votesFor, votesAgainst, totalPower, quorum, pass).value <==>
      && totalPower > 0
      && (votesFor + votesAgainst) * 10000 >= quorum * totalPower
      && votesFor + votesAgainst > 0
      && votesFor * 10000 >= pass * (votesFor + votesAgainst)
  {
    var total := votesFor + votesAgainst;
    if totalPower > 0 {
      DivAtLeast(total * 10000, totalPower, quorum);
      if total > 0 {
        DivAtLeast(votesFor * 10000, total, pass);
      }
    }
  }

  /** With every unit of power voting for it, a proposal passes under any thresholds up to 100%. */
  lemma UnanimousTurnoutPasses(totalPower: int, quorum: int, pass: int)
    requires totalPower > 0 && quorum <= MAX_THRESHOLD && pass <= MAX_THRESHOLD
    requires TallyPasses(totalPower, 0, totalPower, quorum, pass).Some?
    ensures TallyPasses(totalPower, 0, totalPower, quorum, pass) == Some(true)
  {
    TallyMeaning(totalPower, 0, totalPower, quorum, pass);
    MulMonotone(quorum, 10000, totalPower);
    MulMonotone(pass, 10000, totalPower);
  }

  /** A proposal nobody voted on never passes. */
  lemma NoVotesFails(totalPower: int, quorum: int, pass: int)
    requires TallyPasses(0, 0, totalPower, quorum, pass).Some?
    ensures TallyPasses(0, 0, totalPower, quorum, pass) == Some(false)
  {
  }

  // ---------------------------------------------------------------------
  // Storage invariant

  /** Execution and the Executed status go together, except that a cancelled proposal keeps its flag. */
  predicate LifecycleValid(p: Proposal) {
    && (p.executed ==> p.status == Executed || p.status == Cancelled)
    && (p.status == Executed ==> p.executed)
  }

  ghost predicate ProposalValid(id: int, p: Proposal, votes: map<(int, Address), Vote>) {
    && p.id == id
    && LifecycleValid(p)
    && IsI128(p.votesFor) && IsI128(p.votesAgainst)
    && p.votesFor == Sum(votes, Weight(id, true))
    && p.votesAgainst == Sum(votes, Weight(id, false))
  }

  predicate VoteValid(k: (int, Address), v: Vote, proposals: map<int, Proposal>) {
    k.0 in proposals && v.proposalId == k.0 && v.voter == k.1 && v.votePower > 0
  }

  /**
   * The governance storage invariant: nothing exists before initialization;
   * both thresholds are at most 100%; proposal ids run from 1 to
   * `ProposalCount`; each proposal's tallies are the sums of the powers of the
   * votes cast for and against it, and its executed flag agrees with its
   * status; every vote is positive and belongs to an existing proposal; and
   * `TotalVotingPower` is the sum of the stored voter powers.
   */
  ghost predicate GovernanceInvariant(config: Option<GovernanceConfig>, proposals: map<int, Proposal>,
                                      votes: map<(int, Address), Vote>, proposalCount: int,
                                      voterPower: map<Address, int>, totalVotingPower: int,
                                      lastProposal: map<Address, int>) {
    && (config.None? ==> proposals == map[] && votes == map[] && proposalCount == 0
                         && voterPower == map[] && totalVotingPower == 0 && lastProposal == map[])
    && (config.Some? ==> config.value.quorumThreshold <= MAX_THRESHOLD && config.value.passThreshold <= MAX_THRESHOLD)
    && IsU64(proposalCount)
    && (forall id :: id in proposals ==> 1 <= id <= proposalCount && ProposalValid(id, proposals[id], votes))
    && (forall k :: k in votes ==> VoteValid(k, votes[k], proposals))
    && IsI128(totalVotingPower)
    && totalVotingPower == Sum(voterPower, Power)
  }

  /** Every proposal's tallies are non-negative, since every vote carries positive power. */
  lemma TalliesNonNegative(config: Option<GovernanceConfig>, proposals: map<int, Proposal>,
                           votes: map<(int, Address), Vote>, proposalCount: int,
                           voterPower: map<Address, int>, totalVotingPower: int,
                           lastProposal: map<Address, int>, id: int)
    requires GovernanceInvariant(config, proposals, votes, proposalCount, voterPower, totalVotingPower, lastProposal)
    requires id in proposals
    ensures proposals[id].votesFor >= 0 && proposals[id].votesAgainst >= 0
  {
    assert ProposalValid(id, proposals[id], votes);
    forall k | k in votes ensures Weight(id, true)(votes[k]) >= 0 && Weight(id, false)(votes[k]) >= 0 {
      assert VoteValid(k, votes[k], proposals);
    }
    SumNonNegative(votes, Weight(id, true));
    SumNonNegative(votes, Weight(id, false));
  }

  lemma InvariantAfterCreate(c: GovernanceConfig, proposals: map<int, Proposal>,
                             votes: map<(int, Address), Vote>, proposalCount: int,
                             voterPower: map<Address, int>, totalVotingPower: int,
                             lastProposal: map<Address, int>, p: Proposal, proposer: Address, now: int)
    requires GovernanceInvariant(Some(c), proposals, votes, proposalCount, voterPower, totalVotingPower, lastProposal)
    requires IsU64(proposalCount + 1)
    requires p.id == proposalCount + 1 && p.votesFor == 0 && p.votesAgainst == 0 && p.status == Active && !p.executed
    ensures GovernanceInvariant(Some(c), proposals[p.id := p], votes, proposalCount + 1, voterPower, totalVotingPower,
                                lastProposal[proposer := now])
  {
    var id := p.id;
    var proposals' := proposals[id := p];
    forall k | k in votes ensures Weight(id, true)(votes[k]) == 0 && Weight(id, false)(votes[k]) == 0 {
      assert VoteValid(k, votes[k], proposals);
    }
    SumZero(votes, Weight(id, true));
    SumZero(votes, Weight(id, false));
    assert ProposalValid(id, p, votes);
    forall j | j in proposals' ensures 1 <= j <= proposalCount + 1 && ProposalValid(j, proposals'[j], votes) {
      if j != id {
        assert ProposalValid(j, proposals[j], votes);
      }
    }
    forall k | k in votes ensures VoteValid(k, votes[k], proposals') {
      assert VoteValid(k, votes[k], proposals);
    }
  }

  /** Recording a new vote on `id` moves that proposal's tally on the vote's side and no other tally. */
  lemma VoteMovesOneTally(votes: map<(int, Address), Vote>, k: (int, Address), v: Vote, j: int, support: bool)
    requires k !in votes
    ensures Sum(votes[k := v], Weight(j, support)) ==
            Sum(votes, Weight(j, support)) + (if v.proposalId == j && v.support == support then v.votePower else 0)
  {
    SumUpdate(votes, k, v, Weight(j, support));
  }

  lemma InvariantAfterVote(c: GovernanceConfig, proposals: map<int, Proposal>,
                           votes: map<(int, Address), Vote>, proposalCount: int,
                           voterPower: map<Address, int>, totalVotingPower: int,
                           lastProposal: map<Address, int>, id: int, voter: Address, v: Vote, p': Proposal)
    requires GovernanceInvariant(Some(c), proposals, votes, proposalCount, voterPower, totalVotingPower, lastProposal)
    requires id in proposals && (id, voter) !in votes
    requires v.proposalId == id && v.voter == voter && v.votePower > 0
    requires IsI128(p'.votesFor) && IsI128(p'.votesAgainst)
    requires p' == if v.support then proposals[id].(votesFor := proposals[id].votesFor + v.votePower)
                   else proposals[id].(votesAgainst := proposals[id].votesAgainst + v.votePower)
    ensures GovernanceInvariant(Some(c), proposals[id := p'], votes[(id, voter) := v], proposalCount,
                                voterPower, totalVotingPower, lastProposal)
  {
    var votes' := votes[(id, voter) := v];
    var proposals' := proposals[id := p'];
    forall j | j in proposals' ensures 1 <= j <= proposalCount && ProposalValid(j, proposals'[j], votes') {
      assert ProposalValid(j, proposals[j], votes);
      VoteMovesOneTally(votes, (id, voter), v, j, true);
      VoteMovesOneTally(votes, (id, voter), v, j, false);
    }
    forall k | k in votes' ensures VoteValid(k, votes'[k], proposals') {
      if k != (id, voter) {
        assert VoteValid(k, votes[k], proposals);
      }
    }
  }

  /** Changing only a proposal's status and executed flag, lifecycle-consistently, keeps the invariant. */
  lemma InvariantAfterStatus(config: Option<GovernanceConfig>, proposals: map<int, Proposal>,
                             votes: map<(int, Address), Vote>, proposalCount: int,
                             voterPower: map<Address, int>, totalVotingPower: int,
                             lastProposal: map<Address, int>, id: int, p': Proposal)
    requires GovernanceInvariant(config, proposals, votes, proposalCount, voterPower, totalVotingPower, lastProposal)
    requires id in proposals && LifecycleValid(p')
    requires p' == proposals[id].(status := p'.status, executed := p'.executed)
    ensures GovernanceInvariant(config, proposals[id := p'], votes, proposalCount, voterPower, totalVotingPower, lastProposal)
  {
    var proposals' := proposals[id := p'];
    forall j | j in proposals' ensures 1 <= j <= proposalCount && ProposalValid(j, proposals'[j], votes) {
      assert ProposalValid(j, proposals[j], votes);
    }
    forall k | k in votes ensures VoteValid(k, votes[k], proposals') {
      assert VoteValid(k, votes[k], proposals);
    }
  }

  // ---------------------------------------------------------------------
  // Outcome functions

  /**
   * The checks of `create_proposal`, in the source's order: initialized, not
   * paused, enough power, and (when the proposer proposed before) at least a
   * day since then. `Ok` carries the new proposal.
   */
  function ProposalOutcome(config: Option<GovernanceConfig>, power: int, last: Option<int>, count: int,
                           proposer: Address, now: int): (r: Result<Proposal, GovernanceError>)
    ensures config.None? ==> r == Err(NotInitialized)
    ensures config.Some? && config.value.emergencyPause ==> r == Err(ContractPaused)
    ensures config.Some? && !config.value.emergencyPause && power < config.value.minProposalPower ==>
              r == Err(InsufficientVotingPower)
    ensures config.Some? && !config.value.emergencyPause && power >= config.value.minProposalPower && last.Some? ==>
              (IsU64(last.value + PROPOSAL_COOLDOWN) && now < last.value + PROPOSAL_COOLDOWN ==> r == Err(ProposalCooldown))
    ensures r.Ok? ==>
      && config.Some? && !config.value.emergencyPause
      && power >= config.value.minProposalPower
      && (last.Some? ==> now >= last.value + PROPOSAL_COOLDOWN)
      && IsU64(count + 1) && IsU64(now + config.value.votingPeriod)
      && r.value == Proposal(count + 1, proposer, 0, 0, Active, now, now + config.value.votingPeriod,
                             config.value.executionDelay, false)
    ensures r.Ok? <==>
      && config.Some? && !config.value.emergencyPause && power >= config.value.minProposalPower
      && (last.Some? ==> IsU64(last.value + PROPOSAL_COOLDOWN) && now >= last.value + PROPOSAL_COOLDOWN)
      && IsU64(count + 1) && IsU64(now + config.value.votingPeriod)
  {
    if config.None? then Err(NotInitialized)
    else
      var c := config.value;
      if c.emergencyPause then Err(ContractPaused)
      else if power < c.minProposalPower then Err(InsufficientVotingPower)
      else if last.Some? && !IsU64(last.value + PROPOSAL_COOLDOWN) then Panic
      else if last.Some? && now < last.value + PROPOSAL_COOLDOWN then Err(ProposalCooldown)
      else if !IsU64(count + 1) || !IsU64(now + c.votingPeriod) then Panic
      else Ok(Proposal(count + 1, proposer, 0, 0, Active, now, now + c.votingPeriod, c.executionDelay, false))
  }

  /**
   * The checks of `vote`, in the source's order: initialized, not paused, the
   * proposal exists, voting still open, no earlier vote by this voter, and
   * positive power. `Ok` carries the proposal with its tally moved.
   */
  function VoteOutcome(config: Option<GovernanceConfig>, proposals: map<int, Proposal>, id: int,
                       alreadyVoted: bool, power: int, support: bool, now: int)
    : (r: Result<Proposal, GovernanceError>)
    ensures config.None? ==> r == Err(NotInitialized)
    ensures config.Some? && config.value.emergencyPause ==> r == Err(ContractPaused)
    ensures config.Some? && !config.value.emergencyPause && id !in proposals ==> r == Err(ProposalNotFound)
    ensures config.Some? && !config.value.emergencyPause && id in proposals ==>
      && (now > proposals[id].votingEnd ==> r == Err(VotingPeriodEnded))
      && (now <= proposals[id].votingEnd && alreadyVoted ==> r == Err(AlreadyVoted))
      && (now <= proposals[id].votingEnd && !alreadyVoted && power <= 0 ==> r == Err(InsufficientVotingPower))
    ensures r.Ok? ==> config.Some? && id in proposals && now <= proposals[id].votingEnd && !alreadyVoted && power > 0
    ensures r.Ok? && support ==>
      r.value == proposals[id].(votesFor := proposals[id].votesFor + power) && IsI128(r.value.votesFor)
    ensures r.Ok? && !support ==>
      r.value == proposals[id].(votesAgainst := proposals[id].votesAgainst + power) && IsI128(r.value.votesAgainst)
    ensures r.Ok? <==>
      && config.Some? && !config.value.emergencyPause && id in proposals
      && now <= proposals[id].votingEnd && !alreadyVoted && power > 0
      && IsI128((if support then proposals[id].votesFor else proposals[id].votesAgainst) + power)
  {
    if config.None? then Err(NotInitialized)
    else if config.value.emergencyPause then Err(ContractPaused)
    else if id !in proposals then Err(ProposalNotFound)
    else
      var p := proposals[id];
      if now > p.votingEnd then Err(VotingPeriodEnded)
      else if alreadyVoted then Err(AlreadyVoted)
      else if power <= 0 then Err(InsufficientVotingPower)
      else if support then
        (if IsI128(p.votesFor + power) then Ok(p.(votesFor := p.votesFor + power)) else Panic)
      else
        (if IsI128(p.votesAgainst + power) then Ok(p.(votesAgainst := p.votesAgainst + power)) else Panic)
  }

  /** The checks of `finalize_proposal`; `Ok` carries the proposal as stored afterwards. */
  function Finalization(p: Proposal, totalPower: int, quorum: int, pass: int, now: int)
    : (r: Result<Proposal, GovernanceError>)
    ensures now <= p.votingEnd ==> r == Err(VotingPeriodActive)
    ensures r.Err? ==> r.error == VotingPeriodActive
    ensures now > p.votingEnd && p.status != Active ==> r == Ok(p)
    ensures r.Ok? && p.status == Active ==>
      && TallyPasses(p.votesFor, p.votesAgainst, totalPower, quorum, pass).Some?
      && r.value == p.(status := if TallyPasses(p.votesFor, p.votesAgainst, totalPower, quorum, pass).value
                                  then Passed else Failed)
    ensures r.Ok? <==>
      now > p.votingEnd && (p.status != Active || TallyPasses(p.votesFor, p.votesAgainst, totalPower, quorum, pass).Some?)
  {
    if now <= p.votingEnd then Err(VotingPeriodActive)
    else if p.status != Active then Ok(p)
    else match TallyPasses(p.votesFor, p.votesAgainst, totalPower, quorum, pass) {
      case None => Panic
      case Some(passed) => Ok(p.(status := if passed then Passed else Failed))
    }
  }

  /**
   * Finalizing an Active proposal with non-negative tallies stores Passed
   * exactly when turnout reaches the quorum share of the total power and the
   * votes for reach the pass share of the turnout, and Failed otherwise.
   */
  lemma FinalizationMeaning(p: Proposal, totalPower: int, quorum: int, pass: int, now: int)
    requires p.status == Active && p.votesFor >= 0 && p.votesAgainst >= 0
    requires Finalization(p, totalPower, quorum, pass, now).Ok?
    ensures var s := Finalization(p, totalPower, quorum, pass, now).value.status;
      && (s == Passed || s == Failed)
      && (s == Passed <==>
           && totalPower > 0
           && (p.votesFor + p.votesAgainst) * 10000 >= quorum * totalPower
           && p.votesFor + p.votesAgainst > 0
           && p.votesFor * 10000 >= pass * (p.votesFor + p.votesAgainst))
  {
    TallyMeaning(p.votesFor, p.votesAgainst, totalPower, quorum, pass);
  }

  /** The checks of `execute_proposal`; `Ok` carries the executed proposal. */
  function Execution(p: Proposal, now: int): (r: Result<Proposal, GovernanceError>)
    ensures p.status != Passed ==> r == Err(ProposalNotPassed)
    ensures p.status == Passed && p.executed ==> r == Err(AlreadyExecuted)
    ensures p.status == Passed && !p.executed ==>
              (IsU64(p.votingEnd + p.executionDelay) && now < p.votingEnd + p.executionDelay ==> r == Err(ExecutionDelayNotMet))
    ensures r.Err? ==> r.error in {ProposalNotPassed, AlreadyExecuted, ExecutionDelayNotMet}
    ensures r.Ok? ==> p.status == Passed && now >= p.votingEnd + p.executionDelay
                      && r.value == p.(executed := true, status := Executed)
    ensures r.Ok? <==>
      p.status == Passed && !p.executed && IsU64(p.votingEnd + p.executionDelay) && now >= p.votingEnd + p.executionDelay
  {
    if p.status != Passed then Err(ProposalNotPassed)
    else if p.executed then Err(AlreadyExecuted)
    else if !IsU64(p.votingEnd + p.executionDelay) then Panic
    else if now < p.votingEnd + p.executionDelay then Err(ExecutionDelayNotMet)
    else Ok(p.(executed := true, status := Executed))
  }

  /**
   * The config `update_governance_params` stores: each supplied field
   * replaces the old one, and a supplied threshold above 100% rejects the
   * whole update.
   */
  function UpdatedParams(c: GovernanceConfig, votingPeriod: Option<int>, executionDelay: Option<int>,
                         quorum: Option<int>, pass: Option<int>, minPower: Option<int>)
    : (r: Result<GovernanceConfig, GovernanceError>)
    ensures r.Err? <==> (quorum.Some? && quorum.value > MAX_THRESHOLD) || (pass.Some? && pass.value > MAX_THRESHOLD)
    ensures r.Err? ==> r.error == InvalidParameters
    ensures !r.Panic?
    ensures r.Ok? ==>
      && r.value.votingPeriod == (if votingPeriod.Some? then votingPeriod.value else c.votingPeriod)
      && r.value.executionDelay == (if executionDelay.Some? then executionDelay.value else c.executionDelay)
      && r.value.quorumThreshold == (if quorum.Some? then quorum.value else c.quorumThreshold)
      && r.value.passThreshold == (if pass.Some? then pass.value else c.passThreshold)
      && r.value.minProposalPower == (if minPower.Some? then minPower.value else c.minProposalPower)
      && r.value.admin == c.admin && r.value.emergencyPause == c.emergencyPause
      && r.value.stakingContract == c.stakingContract && r.value.rewardsContract == c.rewardsContract
      && r.value.liquidityContract == c.liquidityContract
  {
    var c1 := if votingPeriod.Some? then c.(votingPeriod := votingPeriod.value) else c;
    var c2 := if executionDelay.Some? then c1.(executionDelay := executionDelay.value) else c1;
    if quorum.Some? && quorum.value > MAX_THRESHOLD then Err(InvalidParameters)
    else
      var c3 := if quorum.Some? then c2.(quorumThreshold := quorum.value) else c2;
      if pass.Some? && pass.value > MAX_THRESHOLD then Err(InvalidParameters)
      else
        var c4 := if pass.Some? then c3.(passThreshold := pass.value) else c3;
        Ok(if minPower.Some? then c4.(minProposalPower := minPower.value) else c4)
  }

  // ---------------------------------------------------------------------
  // The contract

  class GovernanceContract {
    var config: Option<GovernanceConfig>
    var proposals: map<int, Proposal>               // Proposal(id)
    var votes: map<(int, Address), Vote>           // Vote(proposal_id, voter)
    var proposalCount: int                          // ProposalCount (u64)
    var voterPower: map<Address, int>              // VoterPower(user)
    var totalVotingPower: int                       // TotalVotingPower
    var lastProposal: map<Address, int>            // LastProposalByUser(user)

    ghost predicate Valid()
      reads this
    {
      GovernanceInvariant(config, proposals, votes, proposalCount, voterPower, totalVotingPower, lastProposal)
    }

    /** `get_voting_power`: the stored power, 0 for a user never given any. */
    function VotingPower(user: Address): (p: int)
      reads this
      ensures user !in voterPower ==> p == 0
      ensures user in voterPower ==> p == voterPower[user]
    {
      if user in voterPower then voterPower[user] else 0
    }

    /** A freshly deployed contract with empty storage. */
    constructor ()
      ensures Valid()
      ensures config.None? && proposals == map[] && votes == map[] && proposalCount == 0
      ensures voterPower == map[] && totalVotingPower == 0 && lastProposal == map[]
    {
      config := None;
      proposals := map[];
      votes := map[];
      proposalCount := 0;
      voterPower := map[];
      totalVotingPower := 0;
      lastProposal := map[];
    }

    method Initialize(admin: Address, stakingContract: Address, rewardsContract: Address, liquidityContract: Address,
                      votingPeriod: int, executionDelay: int, quorum: int, pass: int, minProposalPower: int)
      returns (r: Result<(), GovernanceError>)
      requires Valid()
      modifies this
      ensures Valid()
      ensures r == if old(config).Some? then Err(AlreadyInitialized)
                   else if quorum > MAX_THRESHOLD || pass > MAX_THRESHOLD then Err(InvalidParameters)
                   else Ok(())
      ensures !r.Ok? ==> unchanged(this)
      ensures r.Ok? ==>
        && config == Some(GovernanceConfig(admin, stakingContract, rewardsContract, liquidityContract,
                                           votingPeriod, executionDelay, quorum, pass, minProposalPower, false))
        && proposalCount == 0 && totalVotingPower == 0
        && proposals == old(proposals) && votes == old(votes)
        && voterPower == old(voterPower) && lastProposal == old(lastProposal)
    {
      if config.Some? {
        return Err(AlreadyInitialized);
      }
      if quorum > MAX_THRESHOLD || pass > MAX_THRESHOLD {
        return Err(InvalidParameters);
      }
      config := Some(GovernanceConfig(admin, stakingContract, rewardsContract, liquidityContract,
                                      votingPeriod, executionDelay, quorum, pass, minProposalPower, false));
      proposalCount := 0;
      totalVotingPower := 0;
      r := Ok(());
    }

    method CreateProposal(proposer: Address, now: int) returns (r: Result<int, GovernanceError>)
      requires Valid()
      modifies this
      ensures Valid()
      ensures var last := if proposer in old(lastProposal) then Some(old(lastProposal)[proposer]) else None;
        var o := ProposalOutcome(old(config), old(VotingPower(proposer)), last, old(proposalCount), proposer, now);
        && (o.Err? ==> r == Err(o.error))
        && (o.Panic? ==> r.Panic?)
        && (o.Ok? ==> r == Ok(o.value.id) && proposals == old(proposals)[o.value.id := o.value])
      ensures !r.Ok? ==> unchanged(this)
      ensures r.Ok? ==>
        && r.value == old(proposalCount) + 1 && r.value !in old(proposals)
        && (forall id :: id in old(proposals) ==> id < r.value)
        && proposalCount == r.value && r.value in proposals
        && proposals == old(proposals)[r.value := proposals[r.value]]
        && proposals[r.value].status == Active && proposals[r.value].votesFor == 0 && proposals[r.value].votesAgainst == 0
        && proposals[r.value].votingEnd == now + old(config).value.votingPeriod
        && lastProposal == old(lastProposal)[proposer := now]
        && config == old(config) && votes == old(votes)
        && voterPower == old(voterPower) && totalVotingPower == old(totalVotingPower)
    {
      var last := if proposer in lastProposal then Some(lastProposal[proposer]) else None;
      var check := ProposalOutcome(config, VotingPower(proposer), last, proposalCount, proposer, now);
      if check.Err? {
        return Err(check.error);
      }
      if check.Panic? {
        return Panic;
      }
      var p := check.value;
      InvariantAfterCreate(config.value, proposals, votes, proposalCount, voterPower, totalVotingPower, lastProposal, p, proposer, now);
      proposals := proposals[p.id := p];
      proposalCount := p.id;
      lastProposal := lastProposal[proposer := now];
      r := Ok(p.id);
    }

    method CastVote(voter: Address, proposalId: int, support: bool, now: int) returns (r: Result<(), GovernanceError>)
      requires Valid()
      modifies this
      ensures Valid()
      ensures var o := VoteOutcome(old(config), old(proposals), proposalId, (proposalId, voter) in old(votes),
                                   old(VotingPower(voter)), support, now);
        && (o.Err? ==> r == Err(o.error))
        && (o.Panic? ==> r.Panic?)
        && (o.Ok? ==> r.Ok? && proposals == old(proposals)[proposalId := o.value])
      ensures !r.Ok? ==> unchanged(this)
      ensures r.Ok? ==>
        && votes == old(votes)[(proposalId, voter) := Vote(proposalId, voter, old(VotingPower(voter)), support, now)]
        && config == old(config) && proposalCount == old(proposalCount)
        && voterPower == old(voterPower) && totalVotingPower == old(totalVotingPower) && lastProposal == old(lastProposal)
    {
      var power := VotingPower(voter);
      var o := VoteOutcome(config, proposals, proposalId, (proposalId, voter) in votes, power, support, now);
      if o.Err? {
        return Err(o.error);
      }
      if o.Panic? {
        return Panic;
      }
      var v := Vote(proposalId, voter, power, support, now);
      InvariantAfterVote(config.value, proposals, votes, proposalCount, voterPower, totalVotingPower, lastProposal,
                         proposalId, voter, v, o.value);
      votes := votes[(proposalId, voter) := v];
      proposals := proposals[proposalId := o.value];
      r := Ok(());
    }

    method FinalizeProposal(proposalId: int, now: int) returns (r: Result<(), GovernanceError>)
      requires Valid()
      modifies this
      ensures Valid()
      ensures old(config).None? ==> r == Err(NotInitialized)
      ensures old(config).Some? && proposalId !in old(proposals) ==> r == Err(ProposalNotFound)
      ensures old(config).Some? && proposalId in old(proposals) ==>
        var c := old(config).value;
        var f := Finalization(old(proposals)[proposalId], old(totalVotingPower), c.quorumThreshold, c.passThreshold, now);
        && (f.Err? ==> r == Err(f.error))
        && (f.Panic? ==> r.Panic?)
        && (f.Ok? ==> r.Ok? && proposals == old(proposals)[proposalId := f.value])
      ensures !r.Ok? ==> unchanged(this)
      ensures r.Ok? ==> config == old(config) && votes == old(votes) && proposalCount == old(proposalCount)
                        && voterPower == old(voterPower) && totalVotingPower == old(totalVotingPower)
                        && lastProposal == old(lastProposal)
    {
      if config.None? {
        return Err(NotInitialized);
      }
      var c := config.value;
      if proposalId !in proposals {
        return Err(ProposalNotFound);
      }
      var f := Finalization(proposals[proposalId], totalVotingPower, c.quorumThreshold, c.passThreshold, now);
      if f.Err? {
        return Err(f.error);
      }
      if f.Panic? {
        return Panic;
      }
      assert ProposalValid(proposalId, proposals[proposalId], votes);
      InvariantAfterStatus(config, proposals, votes, proposalCount, voterPower, totalVotingPower, lastProposal,
                           proposalId, f.value);
      proposals := proposals[proposalId := f.value];
      r := Ok(());
    }

    /** `execute_proposal` checks neither the config nor the pause. */
    method ExecuteProposal(executor: Address, proposalId: int, now: int) returns (r: Result<(), GovernanceError>)
      requires Valid()
      modifies this
      ensures Valid()
      ensures proposalId !in old(proposals) ==> r == Err(ProposalNotFound)
      ensures proposalId in old(proposals) ==>
        var e := Execution(old(proposals)[proposalId], now);
        && (e.Err? ==> r == Err(e.error))
        && (e.Panic? ==> r.Panic?)
        && (e.Ok? ==> r.Ok? && proposals == old(proposals)[proposalId := e.value])
      ensures r != Err(AlreadyExecuted)
      ensures !r.Ok? ==> unchanged(this)
      ensures r.Ok? ==> config == old(config) && votes == old(votes) && proposalCount == old(proposalCount)
                        && voterPower == old(voterPower) && totalVotingPower == old(totalVotingPower)
                        && lastProposal == old(lastProposal)
    {
      if proposalId !in proposals {
        return Err(ProposalNotFound);
      }
      assert ProposalValid(proposalId, proposals[proposalId], votes);
      var e := Execution(proposals[proposalId], now);
      if e.Err? {
        return Err(e.error);
      }
      if e.Panic? {
        return Panic;
      }
      InvariantAfterStatus(config, proposals, votes, proposalCount, voterPower, totalVotingPower, lastProposal,
                           proposalId, e.value);
      proposals := proposals[proposalId := e.value];
      r := Ok(());
    }

    /** `update_voting_power`: the caller is not checked; the total moves by `new - old` in two trapping steps. */
    method UpdateVotingPower(user: Address, newPower: int) returns (r: Result<(), GovernanceError>)
      requires Valid()
      requires IsI128(newPower)
      modifies this
      ensures Valid()
      ensures r == if old(config).None? then Err(NotInitialized)
                   else if !IsI128(old(totalVotingPower) - old(VotingPower(user)))
                        || !IsI128(old(totalVotingPower) - old(VotingPower(user)) + newPower) then Panic
                   else Ok(())
      ensures !r.Ok? ==> unchanged(this)
      ensures r.Ok? ==>
        && voterPower == old(voterPower)[user := newPower]
        && totalVotingPower == old(totalVotingPower) - old(VotingPower(user)) + newPower
        && config == old(config) && proposals == old(proposals) && votes == old(votes)
        && proposalCount == old(proposalCount) && lastProposal == old(lastProposal)
    {
      if config.None? {
        return Err(NotInitialized);
      }
      var oldPower := VotingPower(user);
      if !IsI128(totalVotingPower - oldPower) || !IsI128(totalVotingPower - oldPower + newPower) {
        return Panic;
      }
      SumUpdate(voterPower, user, newPower, Power);
      voterPower := voterPower[user := newPower];
      totalVotingPower := totalVotingPower - oldPower + newPower;
      r := Ok(());
    }

    method SetEmergencyPause(admin: Address, paused: bool) returns (r: Result<(), GovernanceError>)
      requires Valid()
      modifies this
      ensures Valid()
      ensures r == if old(config).None? then Err(NotInitialized)
                   else if old(config).value.admin != admin then Err(Unauthorized)
                   else Ok(())
      ensures !r.Ok? ==> unchanged(this)
      ensures r.Ok? ==>
        && config == Some(old(config).value.(emergencyPause := paused))
        && proposals == old(proposals) && votes == old(votes) && proposalCount == old(proposalCount)
        && voterPower == old(voterPower) && totalVotingPower == old(totalVotingPower) && lastProposal == old(lastProposal)
    {
      if config.None? {
        return Err(NotInitialized);
      }
      if config.value.admin != admin {
        return Err(Unauthorized);
      }
      config := Some(config.value.(emergencyPause := paused));
      r := Ok(());
    }

    /** `cancel_proposal`: the admin may cancel a proposal in any status. */
    method CancelProposal(admin: Address, proposalId: int) returns (r: Result<(), GovernanceError>)
      requires Valid()
      modifies this
      ensures Valid()
      ensures r == if old(config).None? then Err(NotInitialized)
                   else if old(config).value.admin != admin then Err(Unauthorized)
                   else if proposalId !in old(proposals) then Err(ProposalNotFound)
                   else Ok(())
      ensures !r.Ok? ==> unchanged(this)
      ensures r.Ok? ==>
        && proposals == old(proposals)[proposalId := old(proposals)[proposalId].(status := Cancelled)]
        && config == old(config) && votes == old(votes) && proposalCount == old(proposalCount)
        && voterPower == old(voterPower) && totalVotingPower == old(totalVotingPower) && lastProposal == old(lastProposal)
    {
      if config.None? {
        return Err(NotInitialized);
      }
      if config.value.admin != admin {
        return Err(Unauthorized);
      }
      if proposalId !in proposals {
        return Err(ProposalNotFound);
      }
      var p' := proposals[proposalId].(status := Cancelled);
      assert ProposalValid(proposalId, proposals[proposalId], votes);
      InvariantAfterStatus(config, proposals, votes, proposalCount, voterPower, totalVotingPower, lastProposal,
                           proposalId, p');
      proposals := proposals[proposalId := p'];
      r := Ok(());
    }

    method UpdateGovernanceParams(admin: Address, votingPeriod: Option<int>, executionDelay: Option<int>,
                                  quorum: Option<int>, pass: Option<int>, minPower: Option<int>)
      returns (r: Result<(), GovernanceError>)
      requires Valid()
      modifies this
      ensures Valid()
      ensures old(config).None? ==> r == Err(NotInitialized)
      ensures old(config).Some? && old(config).value.admin != admin ==> r == Err(Unauthorized)
      ensures old(config).Some? && old(config).value.admin == admin ==>
        var u := UpdatedParams(old(config).value, votingPeriod, executionDelay, quorum, pass, minPower);
        && (u.Err? ==> r == Err(u.error))
        && (u.Ok? ==> r.Ok? && config == Some(u.value))
      ensures !r.Ok? ==> unchanged(this)
      ensures r.Ok? ==> proposals == old(proposals) && votes == old(votes) && proposalCount == old(proposalCount)
                        && voterPower == old(voterPower) && totalVotingPower == old(totalVotingPower)
                        && lastProposal == old(lastProposal)
    {
      if config.None? {
        return Err(NotInitialized);
      }
      if config.value.admin != admin {
        return Err(Unauthorized);
      }
      var u := UpdatedParams(config.value, votingPeriod, executionDelay, quorum, pass, minPower);
      if !u.Ok? {
        return Err(u.error);
      }
      config := Some(u.value);
      r := Ok(());
    }
  }

  /**
   * Executing a proposal twice: after a successful first call the second
   * fails with `ProposalNotPassed`, since the proposal is now Executed.
   */
  method ExecuteTwice(contract: GovernanceContract, executor: Address, proposalId: int, now: int)
    returns (first: Result<(), GovernanceError>, second: Result<(), GovernanceError>)
    requires contract.Valid()
    modifies contract
    ensures first.Ok? ==> second == Err(ProposalNotPassed)
  {
    first := contract.ExecuteProposal(executor, proposalId, now);
    second := contract.ExecuteProposal(executor, proposalId, now);
  }

  /** Voting twice on the same proposal: after a successful first vote the second fails with `AlreadyVoted`. */
  method VoteTwice(contract: GovernanceContract, voter: Address, proposalId: int, support: bool, now: int)
    returns (first: Result<(), GovernanceError>, second: Result<(), GovernanceError>)
    requires contract.Valid()
    modifies contract
    ensures first.Ok? ==> second == Err(AlreadyVoted)
  {
    first := contract.CastVote(voter, proposalId, support, now);
    second := contract.CastVote(voter, proposalId, !support, now);
  }
}
