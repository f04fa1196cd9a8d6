/**
 * Runs of admitted transactions: keys, the ledger, and the absence of new
 * violations carry over from one store to the next.
 */
module EnforcedRuns {
  import opened Wrappers
  import opened Seqs
  import opened Triples
  import opened Constraint
  import opened PatternSafety
  import opened Journal
  import opened Enforcement
  import opened Ledger

  /** A store, and the account kept of what was handed out. */
  datatype State = State(facts: seq<Triple>, ledger: Ledger)

  ghost predicate IsStep(rules: seq<Rule>, states: seq<State>, txs: seq<Transaction>, i: nat)
    requires |states| == |txs| + 1 && i < |txs|
  {
    && Admitted(rules, states[i].ledger, states[i].facts, txs[i])
    && states[i + 1] == State(After(states[i].facts, txs[i]), NextLedger(states[i].ledger, txs[i]))
  }

  /** States linked by admitted transactions, the first one keyed and accounted for. */
  ghost predicate Run(rules: seq<Rule>, states: seq<State>, txs: seq<Transaction>) {
    && |states| == |txs| + 1 && IsAccounted(states[0])
    && forall i: nat {:trigger IsStep(rules, states, txs, i)} :: i < |txs| ==> IsStep(rules, states, txs, i)
  }

  ghost predicate IsAccounted(state: State) {
    Keyed(state.facts) && Accounts(state.ledger, state.facts)
  }

  lemma EmptyIsAccounted(ledger: Ledger)
    ensures IsAccounted(State([], ledger))
  {
  }

  lemma StepStaysAccounted(rules: seq<Rule>, state: State, tx: Transaction, next: State)
    requires IsAccounted(state) && Admitted(rules, state.ledger, state.facts, tx)
    requires next == State(After(state.facts, tx), NextLedger(state.ledger, tx))
    ensures IsAccounted(next)
  {
    LedgerStaysAccountable(rules, state.ledger, state.facts, tx);
  }

  lemma NextIsAccounted(rules: seq<Rule>, states: seq<State>, txs: seq<Transaction>, i: nat)
    requires |states| == |txs| + 1 && i < |txs| && IsStep(rules, states, txs, i) && IsAccounted(states[i])
    ensures IsAccounted(states[i + 1])
  {
    StepStaysAccounted(rules, states[i], txs[i], states[i + 1]);
  }

  /** Over every run ids stay unique and no position, command id or change text is ever repeated. */
  lemma {:induction false} RunsStayAccounted(rules: seq<Rule>, states: seq<State>, txs: seq<Transaction>, i: nat)
    requires Run(rules, states, txs) && i < |states|
    ensures IsAccounted(states[i])
  {
    if i > 0 {
      RunsStayAccounted(rules, states, txs, i - 1);
      assert IsStep(rules, states, txs, i - 1);
      NextIsAccounted(rules, states, txs, i - 1);
    }
  }

  lemma AdmittedNeverWorsens(rules: seq<Rule>, state: State, tx: Transaction)
    requires IsAccounted(state) && AllKept(rules) && Admitted(rules, state.ledger, state.facts, tx)
    ensures NoWorse(state.facts, After(state.facts, tx), rules)
  {
    AdmittedIsWritten(rules, state.ledger, state.facts, tx);
    EnforcementNeverWorsens(rules, state.facts, tx);
  }

  lemma StepNeverWorsens(rules: seq<Rule>, states: seq<State>, txs: seq<Transaction>, i: nat)
    requires Run(rules, states, txs) && AllKept(rules) && i < |txs|
    ensures NoWorse(states[i].facts, states[i + 1].facts, rules)
  {
    RunsStayAccounted(rules, states, txs, i);
    assert IsStep(rules, states, txs, i);
    AdmittedNeverWorsens(rules, states[i], txs[i]);
  }

  lemma NoWorseIsReflexive(facts: seq<Triple>, rules: seq<Rule>)
    ensures NoWorse(facts, facts, rules)
  {
    forall t: int, v | Violates(facts, rules, t, v) ensures ViolatedAtLeast(facts, rules, t, v) {
    }
  }

  /** Over every run, at every instant, no violation appears that was not there at the start, and none grows. */
  lemma {:induction false} RunsNeverWorsen(rules: seq<Rule>, states: seq<State>, txs: seq<Transaction>, i: nat)
    requires Run(rules, states, txs) && AllKept(rules) && i < |states|
    ensures NoWorse(states[0].facts, states[i].facts, rules)
  {
    if i == 0 {
      NoWorseIsReflexive(states[0].facts, rules);
    } else {
      RunsNeverWorsen(rules, states, txs, i - 1);
      StepNeverWorsens(rules, states, txs, i - 1);
      NoWorseIsTransitive(rules, states[0].facts, states[i - 1].facts, states[i].facts);
    }
  }

  /** A store safe at the start is safe at every instant of valid time after any run. */
  lemma RunsStaySafe(rules: seq<Rule>, states: seq<State>, txs: seq<Transaction>)
    requires Run(rules, states, txs) && AllKept(rules) && Safe(states[0].facts, rules)
    ensures forall i :: 0 <= i < |states| ==> Safe(states[i].facts, rules)
  {
    forall i | 0 <= i < |states| ensures Safe(states[i].facts, rules) {
      RunsNeverWorsen(rules, states, txs, i);
      forall t: int, v ensures !Violates(states[i].facts, rules, t, v) {
        assert !ViolatedAtLeast(states[0].facts, rules, t, v);
      }
    }
  }
}
