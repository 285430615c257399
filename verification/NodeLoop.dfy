/**
 The mining loop over the running node: reconcile, propose, take in rival claims and client transactions, finalise.
 Whatever the network sends, the object's state is a run of the state machine, so every theorem about runs holds of it.
 */
module NodeLoops {
  import opened Numbers
  import opened Wrappers
  import opened Types
  import opened Sums
  import opened Chains
  import opened NodeStates
  import opened NodeInvariants
  import opened NodeLedgers
  import opened NodeRuns
  import opened Nodes

  /** What reaches the node while it waits for rival claims. */
  datatype Arrival =
    | Claim(claim: PendingClaim, now: u64, btc: BtcView)
    | ClientTransaction(signed: SignedTransaction)

  /** What one turn of the loop meets: perhaps a heavier peer, its own proposal, and arrivals. */
  datatype Turn = Turn(peer: Option<Peer>, proposal: Proposal, arrivals: seq<Arrival>)

  lemma RunOne(state: NodeState, event: Event)
    ensures Run(state, [event]) == Step(state, event)
  {
    hide Step;
    assert [event][..0] == [];
  }

  lemma OneMore(start: NodeState, events: seq<Event>, event: Event)
    ensures Run(start, events + [event]) == Step(Run(start, events), event)
  {
    hide Step;
    RunConcat(start, events, [event]);
    RunOne(Run(start, events), event);
  }

  method Arrive(node: Node, arrival: Arrival) returns (ghost event: Event)
    modifies node
    ensures node.State() == Step(old(node.State()), event)
    ensures node.ledger == old(node.ledger)
  {
    hide AcceptClaim, NodeStates.Enqueue;
    match arrival
    case Claim(claim, now, btc) =>
      event := Accepting(claim, now, btc);
      var _ := node.AcceptSignedClaim(claim, now, btc);
    case ClientTransaction(signed) =>
      event := Enqueueing(signed);
      var _ := node.EnqueueTransaction(signed);
  }

  /** One turn of the loop is a run. */
  method TakeTurn(node: Node, turn: Turn) returns (ghost events: seq<Event>)
    modifies node, node.store, node.adjuster, node.ledger
    ensures node.State() == Run(old(node.State()), events)
    ensures node.ledger == old(node.ledger) || fresh(node.ledger)
  {
    hide Run, Step, ReconcileFork, Propose, Finalise;
    ghost var start := node.State();
    events := [];
    NoEvents(start);
    if turn.peer.Some? {
      events := ReconcileIsARun(start, turn.peer.value);
      node.Reconcile(turn.peer.value);
    }
    ghost var before := node.State();
    node.ProposeCandidate(turn.proposal);
    ProposingStep(before, turn.proposal);
    OneMore(start, events, Proposing(turn.proposal));
    events := events + [Proposing(turn.proposal)];
    for i := 0 to |turn.arrivals|
      invariant node.State() == Run(start, events)
      invariant node.ledger == old(node.ledger) || fresh(node.ledger)
    {
      ghost var event := Arrive(node, turn.arrivals[i]);
      OneMore(start, events, event);
      events := events + [event];
    }
    if node.height < U64_MAX {
      before := node.State();
      ghost var order := node.FinaliseWinner();
      FinalisingStep(before, order);
      OneMore(start, events, Finalising(order));
      events := events + [Finalising(order)];
    }
  }

  lemma NoEvents(state: NodeState)
    ensures Run(state, []) == state
  {
  }

  lemma ProposingStep(state: NodeState, p: Proposal)
    ensures Step(state, Proposing(p)) == Propose(state, p)
  {
  }

  lemma FinalisingStep(state: NodeState, order: seq<Address>)
    ensures Step(state, Finalising(order)) == Finalise(state, order)
  {
  }

  /**
   A node started from genesis, after any number of turns. Its fields are the functions of its stored chain whenever
   the run was disciplined; and when the run was orderly its ledger's root is the tip header's and balances add up.
   */
  method Mine(turns: seq<Turn>) returns (node: Node, ghost events: seq<Event>)
    ensures node.State() == Run(GENESIS_STATE, events)
    ensures Disciplined(events) ==> Consistent(node.State())
    ensures OrderlyRun(events) ==>
              && Contiguous(node.State())
              && node.State().ledger.Root() == TipStateRoot(ChainOf(node.State()))
              && Sum(node.State().ledger.balances) == node.State().ledger.totalMined
  {
    hide Run, Step, Consistent, OrderlyRun, Disciplined;
    node := new Node();
    events := [];
    NoEvents(GENESIS_STATE);
    for i := 0 to |turns|
      invariant node.State() == Run(GENESIS_STATE, events)
      invariant fresh(node) && fresh(node.store) && fresh(node.adjuster) && fresh(node.ledger)
    {
      ghost var more := TakeTurn(node, turns[i]);
      RunConcat(GENESIS_STATE, events, more);
      events := events + more;
    }
    if Disciplined(events) {
      EveryRunIsConsistent(events);
    }
    if OrderlyRun(events) {
      EveryOrderlyRunIsSound(events);
      SoundIsContiguous(Run(GENESIS_STATE, events));
    }
  }
}
