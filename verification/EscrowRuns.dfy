/**
 Whole runs of the escrow: the books over every run, and the progress of repeated batches.
 */
module EscrowRuns {
  import opened Dispensation
  import opened Escrow
  import opened Sums

  /** A message, or the rest of the chain at work: claims come and go, and the bank moves elsewhere. */
  datatype Event =
    | Create(env: Env, distributor: Address, kind: Kind, runner: Address, outputs: seq<Output>)
    | Run(env: Env, name: string, runner: Address, kind: Kind)
    | Outside(bank: Bank, claims: set<(Address, Kind)>)

  /** The escrow account signs nothing and is spent by nobody else; an iteration visits every pending record once. */
  ghost predicate Admissible(st: State, ev: Event) {
    match ev
    case Create(_, distributor, _, _, _) => distributor != ESCROW
    case Run(env, _, _, _) => Lists(env.order, st.pending)
    case Outside(bank, _) => forall d :: Balance(st.bank, ESCROW, d) <= Balance(bank, ESCROW, d)
  }

  /** An event's effect; a message that fails its validation, errs or panics changes nothing. */
  ghost function Apply(st: State, ev: Event): (State, seq<Entry>)
    requires Admissible(st, ev)
  {
    match ev
    case Create(env, distributor, kind, runner, outputs) =>
      var r := CreateDistribution(st, env, distributor, kind, runner, outputs);
      if CreateAdmitted(env, distributor, kind, runner, outputs) && r.Ok? then r.value else (st, [])
    case Run(env, name, runner, kind) =>
      var r := RunDistribution(st, env, name, runner, kind);
      if RunAdmitted(env, name, runner, kind) && r.Ok? then r.value else (st, [])
    case Outside(bank, claims) => (st.(bank := bank, claims := claims), [])
  }

  ghost predicate ValidRun(st: State, events: seq<Event>)
    decreases |events|, 1
  {
    events == [] ||
    (ValidRun(st, events[..|events| - 1]) &&
     Admissible(Final(st, events[..|events| - 1]).0, events[|events| - 1]))
  }

  /** The state after a run and the journal of the run. */
  ghost function Final(st: State, events: seq<Event>): (State, seq<Entry>)
    requires ValidRun(st, events)
    decreases |events|, 2
  {
    if events == [] then (st, [])
    else
      var (mid, i) := Final(st, events[..|events| - 1]);
      var (after, j) := Apply(mid, events[|events| - 1]);
      (after, i + j)
  }

  // ---------- what a batch draws ----------

  lemma IterationDrawn(st: State, env: Env)
    requires Filed(st.pending) && Lists(env.order, st.pending)
    ensures Drawn(st, Iteration(st, env))
    ensures forall k | k in st.pending :: st.pending[k] in Iteration(st, env)
  {
    var records := Iteration(st, env);
    forall i | 0 <= i < |records| ensures records[i].key == env.order[i] && env.order[i] in st.pending {
      assert env.order[i] in env.order;
    }
    forall k | k in st.pending ensures st.pending[k] in records {
      assert k in env.order;
      var i :| 0 <= i < |env.order| && env.order[i] == k;
      assert records[i] == st.pending[k];
    }
  }

  lemma {:induction false} MatchingDrawn(st: State, records: seq<Record>, name: string, runner: Address, kind: Kind)
    requires Drawn(st, records)
    ensures Drawn(st, Matching(records, name, runner, kind))
    ensures forall r :: r in Matching(records, name, runner, kind) <==> r in records && Matches(r, name, runner, kind)
  {
    if records != [] {
      var init, last := records[..|records| - 1], records[|records| - 1];
      assert records == init + [last];
      MatchingDrawn(st, init, name, runner, kind);
      var all := Matching(init, name, runner, kind);
      forall i | 0 <= i < |all| ensures all[i].key != last.key {
        assert all[i] in init;
      }
    }
  }

  ghost predicate Rising(idx: seq<nat>) { forall i, j :: 0 <= i < j < |idx| ==> idx[i] < idx[j] }

  /** A pending record of this distribution, for this runner. */
  ghost predicate IsWaiting(r: Record, name: string, runner: Address, kind: Kind) {
    r.status == Pending && r.runner == runner && r.key.name == name && r.key.kind == kind
  }

  /** The positions of all waiting records, in order. */
  ghost predicate Positions(
    idx: seq<nat>, records: seq<Record>, picked: seq<Record>, name: string, runner: Address, kind: Kind)
  {
    && |idx| == |picked| && Rising(idx)
    && (forall i | 0 <= i < |idx| :: idx[i] < |records| && picked[i] == records[idx[i]])
    && (forall n: nat | n < |records| :: IsWaiting(records[n], name, runner, kind) <==> n in idx)
  }

  lemma {:induction false} MatchingOrder(records: seq<Record>, name: string, runner: Address, kind: Kind)
    returns (idx: seq<nat>)
    ensures Positions(idx, records, Matching(records, name, runner, kind), name, runner, kind)
  {
    idx := [];
    if records != [] {
      var init, r := records[..|records| - 1], records[|records| - 1];
      var rest := MatchingOrder(init, name, runner, kind);
      var picked := Matching(init, name, runner, kind);
      assert records == init + [r];
      if Matches(r, name, runner, kind) {
        idx := rest + [|init|];
        TakeNext(rest, init, picked, r, name, runner, kind);
      } else {
        idx := rest;
        SkipNext(rest, init, picked, r, name, runner, kind);
        assert picked + [] == picked;
      }
    }
  }

  lemma TakeNext(
    idx: seq<nat>, records: seq<Record>, picked: seq<Record>, r: Record, name: string, runner: Address, kind: Kind)
    requires Positions(idx, records, picked, name, runner, kind) && IsWaiting(r, name, runner, kind)
    ensures Positions(idx + [|records|], records + [r], picked + [r], name, runner, kind)
  {
    hide IsWaiting;
  }

  lemma SkipNext(
    idx: seq<nat>, records: seq<Record>, picked: seq<Record>, r: Record, name: string, runner: Address, kind: Kind)
    requires Positions(idx, records, picked, name, runner, kind) && !IsWaiting(r, name, runner, kind)
    ensures Positions(idx, records + [r], picked, name, runner, kind)
  {
    hide IsWaiting;
  }

  /** The batch is the first ten waiting records in store order, or all if they are fewer. */
  lemma BatchFirst(records: seq<Record>, name: string, runner: Address, kind: Kind) returns (idx: seq<nat>)
    ensures |idx| == |Batch(records, name, runner, kind)| <= 10 && Rising(idx)
    ensures forall i | 0 <= i < |idx| ::
              idx[i] < |records| && Batch(records, name, runner, kind)[i] == records[idx[i]]
              && IsWaiting(records[idx[i]], name, runner, kind)
    ensures forall n: nat | n < |records| && IsWaiting(records[n], name, runner, kind) && n !in idx ::
              |idx| == 10 && n > idx[9]
  {
    hide Matching, IsWaiting;
    var all := MatchingOrder(records, name, runner, kind);
    idx := if |all| <= MAX_RECORDS_PER_BLOCK then all else all[..MAX_RECORDS_PER_BLOCK];
    forall i | 0 <= i < |idx| ensures IsWaiting(records[idx[i]], name, runner, kind) { assert all[i] in all; }
    forall n: nat | n < |records| && IsWaiting(records[n], name, runner, kind) && n !in idx
      ensures |idx| == 10 && n > idx[9]
    {
      var i :| 0 <= i < |all| && all[i] == n;
      assert i >= |idx|;
    }
  }

  lemma BatchDrawn(st: State, env: Env, name: string, runner: Address, kind: Kind)
    requires Filed(st.pending) && Lists(env.order, st.pending)
    ensures Drawn(st, Batch(Iteration(st, env), name, runner, kind))
    ensures forall r | r in Batch(Iteration(st, env), name, runner, kind) :: Matches(r, name, runner, kind)
  {
    hide Iteration, Matching, Drawn;
    IterationDrawn(st, env);
    MatchingDrawn(st, Iteration(st, env), name, runner, kind);
    var all := Matching(Iteration(st, env), name, runner, kind);
    if |all| > MAX_RECORDS_PER_BLOCK { DrawnPrefix(st, all, MAX_RECORDS_PER_BLOCK); }
  }

  lemma DrawnPrefix(st: State, batch: seq<Record>, n: nat)
    requires Drawn(st, batch) && n <= |batch|
    ensures Drawn(st, batch[..n]) && forall r | r in batch[..n] :: r in batch
  {
  }

  // ---------- every event ----------

  lemma EventKeeps(st: State, ev: Event)
    requires Sound(st) && Admissible(st, ev)
    ensures
      var (after, j) := Apply(st, ev);
      && Sound(after) && Balanced(st.pending, after.pending, j)
      && (ev.Create? ==> Moved(st.bank, after.bank, ev.distributor, j))
      && (ev.Run? ==> Moved(st.bank, after.bank, ESCROW, j))
  {
    hide Moved, Balanced, CreateDistribution, DistributeAll, Batch;
    match ev {
      case Create(env, distributor, kind, runner, outputs) =>
        Nothing(st, distributor);
        if CreateDistribution(st, env, distributor, kind, runner, outputs).Ok? {
          CreateKeeps(st, env, distributor, kind, runner, outputs);
        }
      case Run(env, name, runner, kind) =>
        Nothing(st, ESCROW);
        BatchDrawn(st, env, name, runner, kind);
        BatchKeeps(st, env, Batch(Iteration(st, env), name, runner, kind));
      case Outside(_, _) =>
        Nothing(st, ESCROW);
    }
  }

  lemma Nothing(st: State, distributor: Address)
    ensures Balanced(st.pending, st.pending, []) && Moved(st.bank, st.bank, distributor, [])
  {
  }

  lemma ChainBooks(a: map<Key, Record>, b: map<Key, Record>, c: map<Key, Record>, i: seq<Entry>, j: seq<Entry>)
    requires Balanced(a, b, i) && Balanced(b, c, j)
    ensures Balanced(a, c, i + j)
  {
    hide Owed, PendingAmount, Total, Volume, Received;
    JournalAppend(i, j);
  }

  /** Over every run: the escrow covers what is pending, and the journal accounts for every record. */
  lemma {:induction false} RunKeeps(st: State, events: seq<Event>)
    requires Sound(st) && ValidRun(st, events)
    ensures Sound(Final(st, events).0)
    ensures Balanced(st.pending, Final(st, events).0.pending, Final(st, events).1)
  {
    hide Sound, Balanced, Apply, Admissible;
    if events == [] {
      Nothing(st, ESCROW);
    } else {
      var init, ev := events[..|events| - 1], events[|events| - 1];
      RunKeeps(st, init);
      var (mid, i) := Final(st, init);
      EventKeeps(mid, ev);
      var (after, j) := Apply(mid, ev);
      ChainBooks(st.pending, mid.pending, after.pending, i, j);
    }
  }

  ghost predicate Fresh(st: State) { st.pending == map[] }

  /**
   From an empty escrow, for every record and denomination: everything ever escrowed is still pending,
   or was paid, or was stranded; and the account covers everything pending.
   */
  lemma EveryCoinAccounted(st: State, events: seq<Event>, k: Key, d: Denom)
    requires Fresh(st) && ValidRun(st, events)
    ensures
      var (after, j) := Final(st, events);
      && Total(j, Escrowed, k, d) == PendingAmount(after.pending, k, d) + Total(j, Paid, k, d) + Total(j, Stranded, k, d)
      && Owed(after.pending, d) <= Balance(after.bank, ESCROW, d)
  {
    FreshSound(st);
    hide Final, ValidRun, Owed, Total, PendingAmount;
    RunKeeps(st, events);
    assert PendingAmount(st.pending, k, d) == 0 by { NoPending(k, d); }
  }

  lemma NoPending(k: Key, d: Denom)
    ensures PendingAmount(map[], k, d) == 0
  {
  }

  // ---------- the program's own validation ----------

  ghost predicate Vetted(pending: map<Key, Record>) { forall k | k in pending :: Validate(pending[k]) }

  /** Every message of the run validates records as the program does. */
  ghost predicate Validating(events: seq<Event>) {
    forall i | 0 <= i < |events| && !events[i].Outside? :: events[i].env.accepts == Validate
  }

  lemma {:induction false} DropsVetted(
    pending: map<Key, Record>, env: Env, name: string, kind: Kind, runner: Address, outputs: seq<Output>)
    requires Vetted(pending) && env.accepts == Validate
    requires CreateDrops(pending, env, name, kind, runner, outputs).Ok?
    ensures Vetted(CreateDrops(pending, env, name, kind, runner, outputs).value)
  {
    if outputs != [] { DropsVetted(pending, env, name, kind, runner, outputs[..|outputs| - 1]); }
  }

  /** Filing a validated record under a new status never fails validation, so nothing is clawed back and nothing panics. */
  lemma VettedSettles(st: State, env: Env, name: string, runner: Address, kind: Kind)
    requires Sound(st) && Vetted(st.pending) && Lists(env.order, st.pending) && env.accepts == Validate
    ensures RunDistribution(st, env, name, runner, kind).Ok?
    ensures RunDistribution(st, env, name, runner, kind).value.0.pending ==
            st.pending - Gone(env, Batch(Iteration(st, env), name, runner, kind))
    ensures forall r | r in Batch(Iteration(st, env), name, runner, kind) :: FateOf(env, r) != Reclaimed
  {
    hide Funded, DistributeAll, Batch, Balanced, Moved;
    var batch := Batch(Iteration(st, env), name, runner, kind);
    BatchDrawn(st, env, name, runner, kind);
    BatchKeeps(st, env, batch);
    forall r | r in batch ensures Validate(r) {
      assert r.key in st.pending && st.pending[r.key] == r;
    }
  }

  lemma {:induction false} RunVetted(st: State, events: seq<Event>)
    requires Sound(st) && Vetted(st.pending) && ValidRun(st, events) && Validating(events)
    ensures Vetted(Final(st, events).0.pending)
  {
    hide Funded, DistributeAll, Batch, TotalOutput, CreateDrops, Move, Escrows, Validate;
    if events != [] {
      var init, ev := events[..|events| - 1], events[|events| - 1];
      RunVetted(st, init);
      RunKeeps(st, init);
      var mid := Final(st, init).0;
      match ev {
        case Create(env, distributor, kind, runner, outputs) =>
          if CreateDistribution(mid, env, distributor, kind, runner, outputs).Ok? {
            DropsVetted(mid.pending, env, DistributionName(env.height, distributor), kind, runner, outputs);
          }
        case Run(env, name, runner, kind) => VettedSettles(mid, env, name, runner, kind);
        case Outside(_, _) =>
      }
    }
  }

  // ---------- the program's own parsing ----------

  /** A record that came in through an admitted message. */
  ghost predicate Proper(r: Record, parses: Address -> bool) {
    parses(r.key.recipient) && parses(r.runner) && r.key.kind != Unspecified && r.key.name != ""
  }

  ghost predicate AllProper(pending: map<Key, Record>, parses: Address -> bool) {
    forall k | k in pending :: Proper(pending[k], parses)
  }

  /** Every message of the run parses addresses in the same way. */
  ghost predicate Parsing(events: seq<Event>, parses: Address -> bool) {
    forall i | 0 <= i < |events| && !events[i].Outside? :: events[i].env.parses == parses
  }

  lemma {:induction false} DropsProper(
    pending: map<Key, Record>, env: Env, name: string, kind: Kind, runner: Address, outputs: seq<Output>)
    requires AllProper(pending, env.parses) && name != "" && kind != Unspecified && env.parses(runner)
    requires forall o | o in outputs :: env.parses(o.recipient)
    requires CreateDrops(pending, env, name, kind, runner, outputs).Ok?
    ensures AllProper(CreateDrops(pending, env, name, kind, runner, outputs).value, env.parses)
  {
    if outputs != [] {
      assert outputs[|outputs| - 1] in outputs;
      DropsProper(pending, env, name, kind, runner, outputs[..|outputs| - 1]);
    }
  }

  /** Over every run, every pending record has a recipient and a runner that parse. */
  lemma {:induction false} RunProper(st: State, events: seq<Event>, parses: Address -> bool)
    requires Sound(st) && AllProper(st.pending, parses) && ValidRun(st, events) && Parsing(events, parses)
    ensures AllProper(Final(st, events).0.pending, parses)
  {
    hide Funded, DistributeAll, Batch, TotalOutput, CreateDrops, Move, Escrows, Proper, Decimal, Balanced, Moved;
    if events != [] {
      var init, ev := events[..|events| - 1], events[|events| - 1];
      RunProper(st, init, parses);
      RunKeeps(st, init);
      var mid := Final(st, init).0;
      match ev {
        case Create(env, distributor, kind, runner, outputs) =>
          if CreateAdmitted(env, distributor, kind, runner, outputs)
             && CreateDistribution(mid, env, distributor, kind, runner, outputs).Ok? {
            DropsProper(mid.pending, env, DistributionName(env.height, distributor), kind, runner, outputs);
          }
        case Run(env, name, runner, kind) =>
          BatchDrawn(mid, env, name, runner, kind);
          BatchKeeps(mid, env, Batch(Iteration(mid, env), name, runner, kind));
        case Outside(_, _) =>
      }
    }
  }

  lemma FreshSound(st: State)
    requires Fresh(st)
    ensures Sound(st)
  {
    forall d ensures Owed(st.pending, d) == 0 { assert Amounts(st.pending, d) == map[]; }
  }

  /** In every state a run of the program reaches, running a distribution succeeds and claws nothing back. */
  lemma NeverPanics(st: State, events: seq<Event>, env: Env, name: string, runner: Address, kind: Kind)
    requires Fresh(st) && ValidRun(st, events) && Validating(events)
    requires Lists(env.order, Final(st, events).0.pending) && env.accepts == Validate
    ensures
      var after := Final(st, events).0;
      && RunDistribution(after, env, name, runner, kind).Ok?
      && forall r | r in Batch(Iteration(after, env), name, runner, kind) :: FateOf(env, r) != Reclaimed
  {
    FreshSound(st);
    hide Sound;
    RunKeeps(st, events);
    RunVetted(st, events);
    VettedSettles(Final(st, events).0, env, name, runner, kind);
  }

  // ---------- progress ----------

  /** The pending records a runner's distribution still has to settle. */
  ghost function Waiting(pending: map<Key, Record>, name: string, runner: Address, kind: Kind): set<Key> {
    set k | k in pending && IsWaiting(pending[k], name, runner, kind)
  }

  ghost function KeysOf(batch: seq<Record>): set<Key> { set i | 0 <= i < |batch| :: batch[i].key }

  lemma {:induction false} DistinctCount(st: State, batch: seq<Record>)
    requires Drawn(st, batch)
    ensures |KeysOf(batch)| == |batch|
  {
    if batch != [] {
      var init, last := batch[..|batch| - 1], batch[|batch| - 1];
      DistinctCount(st, init);
      forall k | k in KeysOf(batch) ensures k in KeysOf(init) + {last.key} {
        var i :| 0 <= i < |batch| && batch[i].key == k;
        if i < |init| { assert init[i].key == k; }
      }
      forall k | k in KeysOf(init) ensures k in KeysOf(batch) {
        var i :| 0 <= i < |init| && init[i].key == k;
        assert batch[i].key == k;
      }
      assert last.key in KeysOf(batch);
      assert KeysOf(batch) == KeysOf(init) + {last.key};
      assert last.key !in KeysOf(init);
    }
  }

  lemma WaitingCount(st: State, env: Env, name: string, runner: Address, kind: Kind)
    requires Filed(st.pending) && Lists(env.order, st.pending)
    ensures |Matching(Iteration(st, env), name, runner, kind)| == |Waiting(st.pending, name, runner, kind)|
  {
    var records := Iteration(st, env);
    IterationDrawn(st, env);
    MatchingDrawn(st, records, name, runner, kind);
    var all := Matching(records, name, runner, kind);
    DistinctCount(st, all);
    forall k | k in KeysOf(all) ensures k in Waiting(st.pending, name, runner, kind) {
      var i :| 0 <= i < |all| && all[i].key == k;
      assert all[i] in all;
    }
    forall k | k in Waiting(st.pending, name, runner, kind) ensures k in KeysOf(all) {
      assert st.pending[k] in all;
      var i :| 0 <= i < |all| && all[i] == st.pending[k];
      assert all[i].key == k;
    }
    assert KeysOf(all) == Waiting(st.pending, name, runner, kind);
  }

  lemma WaitingMinus(pending: map<Key, Record>, gone: set<Key>, name: string, runner: Address, kind: Kind)
    requires gone <= Waiting(pending, name, runner, kind)
    ensures
      var before := Waiting(pending, name, runner, kind);
      var after := Waiting(pending - gone, name, runner, kind);
      after == before - gone && |after| == |before| - |gone|
  {
    hide IsWaiting;
    var before := Waiting(pending, name, runner, kind);
    assert Waiting(pending - gone, name, runner, kind) == before - gone;
    assert before == (before - gone) + gone;
  }

  lemma GoneWaiting(st: State, env: Env, batch: seq<Record>, name: string, runner: Address, kind: Kind)
    requires Drawn(st, batch) && forall r | r in batch :: Matches(r, name, runner, kind)
    ensures Gone(env, batch) <= Waiting(st.pending, name, runner, kind)
    ensures |Gone(env, batch)| > 0 <==> exists r :: r in batch && Leaves(env, r)
  {
    hide Leaves;
    var gone := Gone(env, batch);
    forall k | k in gone ensures k in Waiting(st.pending, name, runner, kind) && exists r :: r in batch && Leaves(env, r) {
      var i :| 0 <= i < |batch| && Leaves(env, batch[i]) && batch[i].key == k;
      assert batch[i] in batch;
    }
    if r :| r in batch && Leaves(env, r) {
      assert r.key in gone;
    }
    if |gone| > 0 {
      var k :| k in gone;
    }
  }

  /**
   A run settles exactly the records of its batch that can leave: the batch is as large as it may be,
   the waiting count falls by what left, and it falls at all exactly when some record of the batch can leave.
   */
  lemma ProgressExactly(st: State, env: Env, name: string, runner: Address, kind: Kind)
    requires Sound(st) && Lists(env.order, st.pending)
    requires RunDistribution(st, env, name, runner, kind).Ok?
    ensures
      var batch := Batch(Iteration(st, env), name, runner, kind);
      var before := Waiting(st.pending, name, runner, kind);
      var after := Waiting(RunDistribution(st, env, name, runner, kind).value.0.pending, name, runner, kind);
      && |batch| == (if |before| <= MAX_RECORDS_PER_BLOCK then |before| else MAX_RECORDS_PER_BLOCK)
      && Gone(env, batch) <= before && after == before - Gone(env, batch) && |after| == |before| - |Gone(env, batch)|
      && (|after| < |before| <==> exists r :: r in batch && Leaves(env, r))
  {
    hide Funded, DistributeAll, Leaves, Balanced, Moved, Matching, Gone, Matches, Iteration, Waiting, Filed, Panics, Drawn;
    var batch := Batch(Iteration(st, env), name, runner, kind);
    WaitingCount(st, env, name, runner, kind);
    BatchDrawn(st, env, name, runner, kind);
    BatchKeeps(st, env, batch);
    GoneWaiting(st, env, batch, name, runner, kind);
    WaitingMinus(st.pending, Gone(env, batch), name, runner, kind);
  }

  /** Every waiting record's address parses and the record validates under either final status. */
  ghost predicate Cooperative(st: State, env: Env, name: string, runner: Address, kind: Kind) {
    forall k | k in Waiting(st.pending, name, runner, kind) ::
      var r := st.pending[k];
      && env.parses(r.key.recipient)
      && env.accepts(Closed(r, env.height, Completed)) && env.accepts(Closed(r, env.height, Failed))
  }

  lemma CooperativeBatch(st: State, env: Env, batch: seq<Record>, name: string, runner: Address, kind: Kind)
    requires Drawn(st, batch) && Cooperative(st, env, name, runner, kind)
    requires forall r | r in batch :: Matches(r, name, runner, kind)
    ensures !(exists r :: r in batch && Panics(env, r))
    ensures Gone(env, batch) == KeysOf(batch)
  {
    forall i | 0 <= i < |batch| ensures Leaves(env, batch[i]) && !Panics(env, batch[i]) {
      assert batch[i] in batch;
      assert batch[i].key in Waiting(st.pending, name, runner, kind);
    }
  }

  /** How many of n waiting records ten-record runs leave. */
  function LeftAfter(n: nat, runs: nat): nat { if n <= 10 * runs then 0 else n - 10 * runs }

  lemma LeftMore(n: nat, runs: nat)
    ensures LeftAfter(LeftAfter(n, runs), 1) == LeftAfter(n, runs + 1) && LeftAfter(n, 0) == n && LeftAfter(0, 1) == 0
  {
  }

  lemma CooperativeRun(st: State, env: Env, name: string, runner: Address, kind: Kind)
    requires Sound(st) && Lists(env.order, st.pending) && Cooperative(st, env, name, runner, kind)
    ensures RunDistribution(st, env, name, runner, kind).Ok?
    ensures
      var after := RunDistribution(st, env, name, runner, kind).value.0;
      var n := |Waiting(st.pending, name, runner, kind)|;
      && Sound(after)
      && |Waiting(after.pending, name, runner, kind)| == LeftAfter(n, 1)
  {
    hide Funded, DistributeAll, Balanced, Moved, Matching, Gone, KeysOf, Waiting, Filed, Drawn, Leaves, Panics, Iteration;
    var batch := Batch(Iteration(st, env), name, runner, kind);
    BatchDrawn(st, env, name, runner, kind);
    CooperativeBatch(st, env, batch, name, runner, kind);
    BatchKeeps(st, env, batch);
    ProgressExactly(st, env, name, runner, kind);
    DistinctCount(st, batch);
  }

  /** In a reachable state a distribution with waiting records is admitted, and its records parse and validate. */
  lemma ProperCooperates(st: State, env: Env, name: string, runner: Address, kind: Kind)
    requires Vetted(st.pending) && AllProper(st.pending, env.parses) && env.accepts == Validate
    ensures Cooperative(st, env, name, runner, kind)
    ensures RunAdmitted(env, name, runner, kind) || Waiting(st.pending, name, runner, kind) == {}
  {
    if !RunAdmitted(env, name, runner, kind) {
      forall k | k in st.pending ensures !Matches(st.pending[k], name, runner, kind) {
        assert Proper(st.pending[k], env.parses);
      }
    }
  }

  /**
   From an empty escrow, whatever happened before: t runs of a distribution in a row leave
   max(0, n - 10 t) of its n waiting records.
   */
  lemma {:induction false} Drains(
    st: State, events: seq<Event>, runs: seq<Event>, parses: Address -> bool, name: string, runner: Address, kind: Kind)
    requires Fresh(st) && ValidRun(st, events + runs) && ValidRun(st, events)
    requires Validating(events + runs) && Parsing(events + runs, parses)
    requires forall ev | ev in runs :: ev.Run? && ev.name == name && ev.runner == runner && ev.kind == kind
    ensures
      var n := |Waiting(Final(st, events).0.pending, name, runner, kind)|;
      |Waiting(Final(st, events + runs).0.pending, name, runner, kind)| == LeftAfter(n, |runs|)
    decreases |runs|
  {
    hide Sound, Waiting, Vetted, AllProper, LeftAfter, Apply, Admissible, Validate;
    var n := |Waiting(Final(st, events).0.pending, name, runner, kind)|;
    LeftMore(n, if runs == [] then 0 else |runs| - 1);
    if runs == [] {
      assert events + runs == events;
    } else {
      var before, ev := events + runs[..|runs| - 1], runs[|runs| - 1];
      assert ev in runs && (events + runs)[..|events + runs| - 1] == before && (events + runs)[|before|] == ev;
      Drains(st, events, runs[..|runs| - 1], parses, name, runner, kind);
      ReachedState(st, before, parses);
      DrainsOnce(Final(st, before).0, ev);
    }
  }

  lemma DrainsOnce(st: State, ev: Event)
    requires ev.Run? && Admissible(st, ev) && Sound(st) && Vetted(st.pending) && AllProper(st.pending, ev.env.parses)
    requires ev.env.accepts == Validate
    ensures |Waiting(Apply(st, ev).0.pending, ev.name, ev.runner, ev.kind)| ==
            LeftAfter(|Waiting(st.pending, ev.name, ev.runner, ev.kind)|, 1)
  {
    hide Sound, Waiting, RunDistribution, Cooperative, Validate, RunAdmitted, Vetted, AllProper;
    ProperCooperates(st, ev.env, ev.name, ev.runner, ev.kind);
    CooperativeRun(st, ev.env, ev.name, ev.runner, ev.kind);
  }

  lemma ReachedState(st: State, events: seq<Event>, parses: Address -> bool)
    requires Fresh(st) && ValidRun(st, events) && Validating(events) && Parsing(events, parses)
    ensures
      var after := Final(st, events).0;
      Sound(after) && Vetted(after.pending) && AllProper(after.pending, parses)
  {
    FreshSound(st);
    hide Sound, Final, ValidRun, Validating, Parsing;
    RunKeeps(st, events);
    RunVetted(st, events);
    RunProper(st, events, parses);
  }
}
