/**
 A distribution from its creation to its last payment: which records a creation writes and for whom, when it is
 accepted, and what repeated runs by its runner pay.
 */
module Distributions {
  import opened Dispensation
  import opened Escrow
  import opened EscrowRuns
  import opened Sums

  // ---------- names ----------

  lemma {:induction false} DigitsOnly(n: nat)
    ensures forall i | 0 <= i < |Decimal(n)| :: '0' <= Decimal(n)[i] <= '9'
  {
    if n >= 10 { DigitsOnly(n / 10); }
  }

  function Value(s: string): int {
    if s == [] then 0 else 10 * Value(s[..|s| - 1]) + (s[|s| - 1] as int - '0' as int)
  }

  lemma {:induction false} DecimalValue(n: nat)
    ensures Value(Decimal(n)) == n
  {
    if n >= 10 {
      DecimalValue(n / 10);
      assert Decimal(n)[..|Decimal(n)| - 1] == Decimal(n / 10);
    } else {
      assert Decimal(n)[..0] == [];
    }
  }

  /** A distribution's name tells its height and its distributor. */
  lemma NameTells(height: nat, distributor: Address, height': nat, distributor': Address)
    requires DistributionName(height, distributor) == DistributionName(height', distributor')
    ensures height == height' && distributor == distributor'
  {
    var s, a, b := DistributionName(height, distributor), Decimal(height), Decimal(height');
    DigitsOnly(height);
    DigitsOnly(height');
    assert s == a + "_" + distributor && s == b + "_" + distributor';
    assert s[|a|] == '_' && s[|b|] == '_';
    assert |a| == |b|;
    assert a == s[..|a|] && b == s[..|b|];
    assert distributor == s[|a| + 1..] && distributor' == s[|b| + 1..];
    DecimalValue(height);
    DecimalValue(height');
  }

  // ---------- what a creation writes ----------

  /** What the outputs give to one recipient, and to all. */
  ghost function Claimed(outputs: seq<Output>, a: Address, d: Denom): nat {
    if outputs == [] then 0
    else
      var o := outputs[|outputs| - 1];
      Claimed(outputs[..|outputs| - 1], a, d) + if o.recipient == a then Amount(o.coins, d) else 0
  }

  ghost function ClaimedInAll(outputs: seq<Output>, d: Denom): nat {
    if outputs == [] then 0 else ClaimedInAll(outputs[..|outputs| - 1], d) + Amount(outputs[|outputs| - 1].coins, d)
  }

  ghost predicate Addressed(outputs: seq<Output>, a: Address) {
    exists i :: 0 <= i < |outputs| && outputs[i].recipient == a
  }

  lemma AddressedLast(outputs: seq<Output>, a: Address)
    requires outputs != []
    ensures Addressed(outputs, a) <==> Addressed(outputs[..|outputs| - 1], a) || outputs[|outputs| - 1].recipient == a
  {
    var init := outputs[..|outputs| - 1];
    if i :| 0 <= i < |outputs| && outputs[i].recipient == a && i < |init| { assert init[i].recipient == a; }
    if i :| 0 <= i < |init| && init[i].recipient == a { assert outputs[i].recipient == a; }
  }

  /** Every recipient has a record of this runner and height, and all other records are as before. */
  ghost predicate Written(
    before: map<Key, Record>, after: map<Key, Record>, height: nat, name: string, kind: Kind, runner: Address,
    outputs: seq<Output>)
  {
    forall k: Key ::
      if k.name == name && k.kind == kind && Addressed(outputs, k.recipient)
      then k in after && after[k] == Record(Pending, k, after[k].coins, runner, height, -1)
      else (k in after <==> k in before) && (k in after ==> after[k] == before[k])
  }

  lemma {:induction false} DropsWritten(
    pending: map<Key, Record>, env: Env, name: string, kind: Kind, runner: Address, outputs: seq<Output>)
    requires CreateDrops(pending, env, name, kind, runner, outputs).Ok?
    ensures
      var after := CreateDrops(pending, env, name, kind, runner, outputs).value;
      Written(pending, after, env.height, name, kind, runner, outputs)
  {
    hide Written, DropRecord;
    if outputs == [] {
      NothingWritten(pending, env.height, name, kind, runner);
    } else {
      var init := outputs[..|outputs| - 1];
      DropsWritten(pending, env, name, kind, runner, init);
      var mid := CreateDrops(pending, env, name, kind, runner, init).value;
      WrittenMore(pending, mid, env.height, name, kind, runner, outputs);
    }
  }

  lemma NothingWritten(pending: map<Key, Record>, height: nat, name: string, kind: Kind, runner: Address)
    ensures Written(pending, pending, height, name, kind, runner, [])
  {
    hide Addressed;
    NobodyAddressed();
  }

  lemma WrittenMore(
    pending: map<Key, Record>, mid: map<Key, Record>, height: nat, name: string, kind: Kind, runner: Address,
    outputs: seq<Output>)
    requires outputs != [] && Written(pending, mid, height, name, kind, runner, outputs[..|outputs| - 1])
    ensures
      var dr := DropRecord(mid, height, name, kind, runner, outputs[|outputs| - 1]);
      Written(pending, mid[dr.key := dr], height, name, kind, runner, outputs)
  {
    hide Addressed;
    forall a { AddressedLast(outputs, a); }
  }

  lemma NobodyAddressed()
    ensures forall a :: !Addressed([], a)
  {
  }

  lemma {:induction false} EscrowsClaimed(name: string, kind: Kind, outputs: seq<Output>, k: Key, d: Denom)
    ensures Total(Escrows(name, kind, outputs), Escrowed, k, d) ==
            if k.name == name && k.kind == kind then Claimed(outputs, k.recipient, d) else 0
    ensures Volume(Escrows(name, kind, outputs), Escrowed, d) == ClaimedInAll(outputs, d)
  {
    if outputs != [] {
      EscrowsClaimed(name, kind, outputs[..|outputs| - 1], k, d);
      EscrowsLast(name, kind, outputs, k, d);
    }
  }

  /**
   A creation files, under its height and distributor, a record for each recipient that its runner can settle, adds
   exactly the recipient's coins to it, leaves all other records alone, takes the total from the distributor into
   escrow, and registers the distribution.
   */
  lemma CreationWrites(st: State, env: Env, distributor: Address, kind: Kind, runner: Address, outputs: seq<Output>)
    requires Sound(st) && distributor != ESCROW
    requires CreateDistribution(st, env, distributor, kind, runner, outputs).Ok?
    ensures
      var after := CreateDistribution(st, env, distributor, kind, runner, outputs).value.0;
      var name := DistributionName(env.height, distributor);
      && Written(st.pending, after.pending, env.height, name, kind, runner, outputs)
      && (forall o | o in outputs ::
            var k := Key(Decimal(env.height) + "_" + distributor, o.recipient, kind);
            k in Waiting(after.pending, name, runner, kind) && after.pending[k].start == env.height)
      && (forall k, d ::
            PendingAmount(after.pending, k, d) ==
            PendingAmount(st.pending, k, d) +
            if k.name == name && k.kind == kind then Claimed(outputs, k.recipient, d) else 0)
      && (forall a, d ::
            Balance(after.bank, a, d) ==
            Balance(st.bank, a, d) + (if a == ESCROW then ClaimedInAll(outputs, d) else 0)
                                   - (if a == distributor then ClaimedInAll(outputs, d) else 0))
      && after.distributions == st.distributions + {(name, kind, runner)}
      && after.completed == st.completed && after.failed == st.failed && after.claims == st.claims
  {
    hide CreateDrops, Escrows, Move, TotalOutput, Total, Volume, Received, Balance, Decimal, Claimed, ClaimedInAll, Has,
         PendingAmount, Owed, Amount, Addressed;
    var (after, j) := CreateDistribution(st, env, distributor, kind, runner, outputs).value;
    var name := DistributionName(env.height, distributor);
    CreateKeeps(st, env, distributor, kind, runner, outputs);
    DropsWritten(st.pending, env, name, kind, runner, outputs);
    EscrowsOnly(name, kind, outputs);
    forall k, d { EscrowsClaimed(name, kind, outputs, k, d); }
    forall d ensures Volume(j, Escrowed, d) == ClaimedInAll(outputs, d) {
      EscrowsClaimed(name, kind, outputs, Key("", "", kind), d);
    }
    forall o | o in outputs ensures Addressed(outputs, o.recipient) { IsAddressed(outputs, o); }
  }

  lemma IsAddressed(outputs: seq<Output>, o: Output)
    requires o in outputs
    ensures Addressed(outputs, o.recipient)
  {
  }

  // ---------- when a creation is accepted ----------

  /** An output that can be filed: somebody to pay, and coins of its own or of a record it is merged into. */
  ghost predicate Receivable(pending: map<Key, Record>, name: string, kind: Kind, outputs: seq<Output>, i: nat)
    requires i < |outputs|
  {
    var o := outputs[i];
    && o.recipient != ""
    && (o.coins != map[] || Key(name, o.recipient, kind) in pending || Addressed(outputs[..i], o.recipient))
  }

  ghost predicate PositiveCoins(outputs: seq<Output>) {
    forall o | o in outputs :: forall d | d in o.coins :: o.coins[d] > 0
  }

  lemma {:induction false} DropsExactly(
    pending: map<Key, Record>, env: Env, name: string, kind: Kind, runner: Address, outputs: seq<Output>)
    requires Vetted(pending) && env.accepts == Validate && PositiveCoins(outputs)
    ensures CreateDrops(pending, env, name, kind, runner, outputs).Ok? <==>
            forall i | 0 <= i < |outputs| :: Receivable(pending, name, kind, outputs, i)
  {
    hide Receivable, Validate, Vetted, DropRecord;
    if outputs != [] {
      var init := outputs[..|outputs| - 1];
      DropsExactly(pending, env, name, kind, runner, init);
      forall i | 0 <= i < |init|
        ensures Receivable(pending, name, kind, init, i) <==> Receivable(pending, name, kind, outputs, i)
      {
        ReceivableInit(pending, name, kind, outputs, i);
      }
      if CreateDrops(pending, env, name, kind, runner, init).Ok? { LastDrop(pending, env, name, kind, runner, outputs); }
    }
  }

  lemma ReceivableInit(pending: map<Key, Record>, name: string, kind: Kind, outputs: seq<Output>, i: nat)
    requires i < |outputs| - 1
    ensures Receivable(pending, name, kind, outputs[..|outputs| - 1], i) <==> Receivable(pending, name, kind, outputs, i)
  {
    hide Addressed;
    assert outputs[..|outputs| - 1][..i] == outputs[..i];
  }

  /** The last output is accepted exactly if it can be filed. */
  lemma LastDrop(pending: map<Key, Record>, env: Env, name: string, kind: Kind, runner: Address, outputs: seq<Output>)
    requires Vetted(pending) && env.accepts == Validate && PositiveCoins(outputs) && outputs != []
    requires CreateDrops(pending, env, name, kind, runner, outputs[..|outputs| - 1]).Ok?
    ensures
      var p, o := CreateDrops(pending, env, name, kind, runner, outputs[..|outputs| - 1]).value, outputs[|outputs| - 1];
      Validate(DropRecord(p, env.height, name, kind, runner, o)) <==> Receivable(pending, name, kind, outputs, |outputs| - 1)
  {
    hide Addressed, Validate, Vetted, DropRecord, CreateDrops;
    var init, o := outputs[..|outputs| - 1], outputs[|outputs| - 1];
    var p := CreateDrops(pending, env, name, kind, runner, init).value;
    assert o in outputs;
    DropsVetted(pending, env, name, kind, runner, init);
    DropsWritten(pending, env, name, kind, runner, init);
    DropValid(p, env.height, name, kind, runner, o);
    var k := Key(name, o.recipient, kind);
    assert k in p <==> k in pending || Addressed(init, k.recipient);
  }

  lemma DropValid(pending: map<Key, Record>, height: nat, name: string, kind: Kind, runner: Address, o: Output)
    requires Vetted(pending) && forall d | d in o.coins :: o.coins[d] > 0
    ensures Validate(DropRecord(pending, height, name, kind, runner, o)) <==>
            o.recipient != "" && (o.coins != map[] || Key(name, o.recipient, kind) in pending)
  {
    var key := Key(name, o.recipient, kind);
    if key in pending {
      var had := pending[key].coins;
      assert Validate(pending[key]);
      var d :| d in had;
      var sum := AddCoins(o.coins, had);
      assert d in sum;
      forall e | e in sum ensures sum[e] > 0 { assert sum[e] == Amount(o.coins, e) + Amount(had, e); }
    }
  }

  lemma {:induction false} TotalClaimed(outputs: seq<Output>, d: Denom)
    ensures Amount(TotalOutput(outputs), d) == ClaimedInAll(outputs, d)
  {
    if outputs != [] { TotalClaimed(outputs[..|outputs| - 1], d); }
  }

  /** A distribution of this height, distributor, kind and runner is new, it is paid for, and its outputs can be filed. */
  ghost predicate CanCreate(st: State, env: Env, distributor: Address, kind: Kind, runner: Address, outputs: seq<Output>) {
    var name := Decimal(env.height) + "_" + distributor;
    && (name, kind, runner) !in st.distributions
    && (forall d :: ClaimedInAll(outputs, d) <= Balance(st.bank, distributor, d))
    && (forall i | 0 <= i < |outputs| :: Receivable(st.pending, name, kind, outputs, i))
  }

  /** An admitted creation is accepted if and only if it can be. */
  lemma CreationExactly(st: State, env: Env, distributor: Address, kind: Kind, runner: Address, outputs: seq<Output>)
    requires Vetted(st.pending) && env.accepts == Validate && CreateAdmitted(env, distributor, kind, runner, outputs)
    ensures CreateDistribution(st, env, distributor, kind, runner, outputs).Ok? <==>
            CanCreate(st, env, distributor, kind, runner, outputs)
  {
    hide CreateDrops, TotalOutput, Move, Escrows, Decimal, Receivable, ClaimedInAll, Vetted, Validate;
    DropsExactly(st.pending, env, DistributionName(env.height, distributor), kind, runner, outputs);
    forall d ensures Amount(TotalOutput(outputs), d) == ClaimedInAll(outputs, d) { TotalClaimed(outputs, d); }
    CoversExactly(st.bank, distributor, TotalOutput(outputs));
  }

  lemma CoversExactly(bank: Bank, a: Address, c: Coins)
    ensures Has(bank, a, c) <==> forall d :: Amount(c, d) <= Balance(bank, a, d)
  {
    hide Balance;
    if forall d :: Amount(c, d) <= Balance(bank, a, d) {
      forall d | d in c ensures c[d] <= Balance(bank, a, d) { assert Amount(c, d) == c[d]; }
    }
  }

  // ---------- a distribution is created once ----------

  lemma {:induction false} BatchRegisters(st: State, env: Env, batch: seq<Record>)
    requires DistributeAll(st, env, batch).Ok?
    ensures DistributeAll(st, env, batch).value.0.distributions == st.distributions
  {
    if batch != [] { BatchRegisters(st, env, batch[..|batch| - 1]); }
  }

  /** Over every run, a registered distribution stays registered. */
  lemma {:induction false} RunRegisters(st: State, events: seq<Event>)
    requires ValidRun(st, events)
    ensures st.distributions <= Final(st, events).0.distributions
  {
    hide CreateDrops, DistributeAll, Batch, TotalOutput, Move, Escrows, DistributionName;
    if events != [] {
      var init, ev := events[..|events| - 1], events[|events| - 1];
      RunRegisters(st, init);
      var mid := Final(st, init).0;
      if ev.Run? {
        var batch := Batch(Iteration(mid, ev.env), ev.name, ev.runner, ev.kind);
        if DistributeAll(mid, ev.env, batch).Ok? { BatchRegisters(mid, ev.env, batch); }
      }
    }
  }

  /** Whatever happens after a creation, no second one of the same height, distributor, kind and runner succeeds. */
  lemma CreatedOnce(
    st: State, env: Env, distributor: Address, kind: Kind, runner: Address, outputs: seq<Output>, events: seq<Event>,
    again: Env, others: seq<Output>)
    requires CreateDistribution(st, env, distributor, kind, runner, outputs).Ok? && again.height == env.height
    requires ValidRun(CreateDistribution(st, env, distributor, kind, runner, outputs).value.0, events)
    ensures
      var after := CreateDistribution(st, env, distributor, kind, runner, outputs).value.0;
      CreateDistribution(Final(after, events).0, again, distributor, kind, runner, others).Err?
  {
    hide CreateDrops, TotalOutput, Move, Escrows, Final, ValidRun, Decimal;
    RunRegisters(CreateDistribution(st, env, distributor, kind, runner, outputs).value.0, events);
  }

  // ---------- one run ----------

  /** Every entry pays or strands a record of this distribution, as the bank takes or refuses the recipient. */
  ghost predicate Own(j: seq<Entry>, name: string, kind: Kind, refuses: Address -> bool) {
    forall e | e in j ::
      e.key.name == name && e.key.kind == kind && e.tag == if refuses(e.key.recipient) then Stranded else Paid
  }

  lemma {:induction false} BatchOwn(st: State, env: Env, batch: seq<Record>, name: string, runner: Address, kind: Kind)
    requires Sound(st) && Drawn(st, batch) && DistributeAll(st, env, batch).Ok?
    requires forall r | r in batch :: Matches(r, name, runner, kind)
    ensures Own(DistributeAll(st, env, batch).value.1, name, kind, env.refuses)
  {
    hide Sound, Distribute, Balanced, Moved, Panics, Leaves;
    if batch != [] {
      var init, r := batch[..|batch| - 1], batch[|batch| - 1];
      assert r in batch;
      BatchOwn(st, env, init, name, runner, kind);
      BatchKeeps(st, env, init);
      var mid := DistributeAll(st, env, init).value.0;
      assert r.key !in Gone(env, init);
      FateDecides(mid, env, r);
    }
  }

  /** A record is filed as completed, or as failed if the bank refused it, at the height of the run. */
  ghost predicate FiledAs(r: Record, height: nat, refused: bool, st: State) {
    if refused
    then r.key in st.failed && st.failed[r.key] == r.(status := Failed, end := height)
    else r.key in st.completed && st.completed[r.key] == r.(status := Completed, end := height)
  }

  ghost predicate SameFile(st: State, after: State, k: Key) {
    && (k in st.completed <==> k in after.completed) && (k in st.completed ==> after.completed[k] == st.completed[k])
    && (k in st.failed <==> k in after.failed) && (k in st.failed ==> after.failed[k] == st.failed[k])
  }

  lemma {:induction false} BatchFiles(st: State, env: Env, batch: seq<Record>)
    requires Sound(st) && Drawn(st, batch) && DistributeAll(st, env, batch).Ok?
    ensures
      var after := DistributeAll(st, env, batch).value.0;
      && (forall r | r in batch && Leaves(env, r) :: FiledAs(r, env.height, env.refuses(r.key.recipient), after))
      && (forall k | k !in Gone(env, batch) :: SameFile(st, after, k))
  {
    hide Sound, Distribute, Balanced, Moved, Panics, Leaves, FiledAs;
    if batch != [] {
      var init, r := batch[..|batch| - 1], batch[|batch| - 1];
      BatchFiles(st, env, init);
      BatchKeeps(st, env, init);
      var mid := DistributeAll(st, env, init).value.0;
      assert r.key !in Gone(env, init);
      OneFiles(mid, env, r);
      GoneLast(env, batch);
      var after := Distribute(mid, env, r).value.0;
      forall s | s in batch && Leaves(env, s) ensures FiledAs(s, env.height, env.refuses(s.key.recipient), after) {
        if s != r {
          var i :| 0 <= i < |batch| && batch[i] == s;
          assert init[i] == s && s in init && s.key != r.key;
          FileStays(s, env.height, env.refuses(s.key.recipient), mid, after);
        }
      }
      forall k | k !in Gone(env, batch) ensures SameFile(st, after, k) {
        assert SameFile(st, mid, k) && SameFile(mid, after, k);
      }
    }
  }

  lemma OneFiles(st: State, env: Env, r: Record)
    requires Sound(st) && r.key in st.pending && st.pending[r.key] == r && Distribute(st, env, r).Ok?
    ensures
      var after := Distribute(st, env, r).value.0;
      && (Leaves(env, r) ==> FiledAs(r, env.height, env.refuses(r.key.recipient), after))
      && (forall k | k != r.key || !Leaves(env, r) :: SameFile(st, after, k))
  {
    hide Sound, Distribute;
    FateDecides(st, env, r);
  }

  lemma FileStays(r: Record, height: nat, refused: bool, st: State, after: State)
    requires FiledAs(r, height, refused, st) && SameFile(st, after, r.key)
    ensures FiledAs(r, height, refused, after)
  {
  }

  /**
   In a state the program reaches, a run settles ten of its waiting records, or all if they are fewer: they leave the
   pending store, are filed as completed or failed, and the bank moves as the journal says. Nothing else is touched.
   */
  lemma RunSettles(st: State, env: Env, name: string, runner: Address, kind: Kind)
    requires Sound(st) && Vetted(st.pending) && AllProper(st.pending, env.parses)
    requires Lists(env.order, st.pending) && env.accepts == Validate
    ensures RunDistribution(st, env, name, runner, kind).Ok?
    ensures
      var (after, j) := RunDistribution(st, env, name, runner, kind).value;
      var before, left := Waiting(st.pending, name, runner, kind), Waiting(after.pending, name, runner, kind);
      && left <= before && |left| == LeftAfter(|before|, 1) && after.pending == st.pending - (before - left)
      && Sound(after) && Own(j, name, kind, env.refuses) && Moved(st.bank, after.bank, ESCROW, j)
      && (forall k | k in before - left :: FiledAs(st.pending[k], env.height, env.refuses(k.recipient), after))
      && (forall k | k !in before - left :: SameFile(st, after, k))
  {
    hide DistributeAll, Balanced, Moved, Batch, Gone, Leaves, Panics, Iteration, FiledAs, SameFile, Own, Validate, Vetted,
         AllProper, Waiting, Cooperative, Drawn, Funded, Filed, RunAdmitted;
    ProperCooperates(st, env, name, runner, kind);
    CooperativeRun(st, env, name, runner, kind);
    ProgressExactly(st, env, name, runner, kind);
    var batch := Batch(Iteration(st, env), name, runner, kind);
    BatchDrawn(st, env, name, runner, kind);
    BatchKeeps(st, env, batch);
    BatchOwn(st, env, batch, name, runner, kind);
    BatchFiles(st, env, batch);
    var after := RunDistribution(st, env, name, runner, kind).value.0;
    var before, left := Waiting(st.pending, name, runner, kind), Waiting(after.pending, name, runner, kind);
    assert before - left == Gone(env, batch);
    forall k | k in Gone(env, batch)
      ensures k in st.pending && FiledAs(st.pending[k], env.height, env.refuses(k.recipient), after)
    {
      GoneRecord(st, env, batch, k);
    }
  }

  lemma GoneRecord(st: State, env: Env, batch: seq<Record>, k: Key)
    requires Drawn(st, batch) && k in Gone(env, batch)
    ensures k in st.pending && st.pending[k] in batch && Leaves(env, st.pending[k]) && st.pending[k].key == k
  {
    hide Leaves;
    var i :| 0 <= i < |batch| && Leaves(env, batch[i]) && batch[i].key == k;
    assert st.pending[k] == batch[i];
  }

  // ---------- repeated runs ----------

  /** Runs of one distribution by one runner, whose messages validate, parse and refuse alike. */
  ghost predicate Series(
    runs: seq<Event>, parses: Address -> bool, refuses: Address -> bool, name: string, runner: Address, kind: Kind)
  {
    forall i | 0 <= i < |runs| ::
      && runs[i].Run? && runs[i].name == name && runs[i].runner == runner && runs[i].kind == kind
      && runs[i].env.accepts == Validate && runs[i].env.parses == parses && runs[i].env.refuses == refuses
  }

  /** A record is filed as completed, or as failed if the bank refused it, with the coins it had. */
  ghost predicate SettledAs(r: Record, refused: bool, st: State) {
    if refused
    then r.key in st.failed && st.failed[r.key] == r.(status := Failed, end := st.failed[r.key].end)
    else r.key in st.completed && st.completed[r.key] == r.(status := Completed, end := st.completed[r.key].end)
  }

  /** What a number of runs has settled of a distribution. */
  ghost predicate Progress(
    st: State, last: State, j: seq<Entry>, runs: nat, refuses: Address -> bool, name: string, runner: Address, kind: Kind)
  {
    var before, left := Waiting(st.pending, name, runner, kind), Waiting(last.pending, name, runner, kind);
    && left <= before && |left| == LeftAfter(|before|, runs) && last.pending == st.pending - (before - left)
    && Own(j, name, kind, refuses)
    && (forall a, d | a != ESCROW :: Balance(last.bank, a, d) == Balance(st.bank, a, d) + Received(j, a, d))
    && (forall k | k in before - left :: SettledAs(st.pending[k], refuses(k.recipient), last))
    && last.distributions == st.distributions
  }

  lemma {:induction false} SeriesSettles(
    st: State, runs: seq<Event>, parses: Address -> bool, refuses: Address -> bool, name: string, runner: Address,
    kind: Kind)
    requires Sound(st) && Vetted(st.pending) && AllProper(st.pending, parses) && ValidRun(st, runs)
    requires Series(runs, parses, refuses, name, runner, kind)
    ensures
      var (last, j) := Final(st, runs);
      && Sound(last) && Vetted(last.pending) && AllProper(last.pending, parses)
      && Progress(st, last, j, |runs|, refuses, name, runner, kind)
  {
    hide Sound, RunDistribution, Cooperative, Validate, Proper, Progress, Waiting, FiledAs, SettledAs, Own, Received,
         Balance, Moved, RunAdmitted;
    if runs == [] {
      NoProgress(st, refuses, name, runner, kind);
    } else {
      var init, ev := runs[..|runs| - 1], runs[|runs| - 1];
      SeriesSettles(st, init, parses, refuses, name, runner, kind);
      var (mid, i) := Final(st, init);
      ProperCooperates(mid, ev.env, name, runner, kind);
      RunSettles(mid, ev.env, name, runner, kind);
      if RunAdmitted(ev.env, name, runner, kind) {
        var (after, j) := RunDistribution(mid, ev.env, name, runner, kind).value;
        RunRegistersToo(mid, ev.env, name, runner, kind);
        MoreProgress(st, mid, after, i, j, |init|, ev.env, name, runner, kind);
      } else {
        assert i + [] == i;
        IdleProgress(st, mid, i, |init|, refuses, name, runner, kind);
      }
    }
  }

  lemma RunRegistersToo(st: State, env: Env, name: string, runner: Address, kind: Kind)
    requires (forall k | k in env.order :: k in st.pending) && RunDistribution(st, env, name, runner, kind).Ok?
    ensures RunDistribution(st, env, name, runner, kind).value.0.distributions == st.distributions
  {
    BatchRegisters(st, env, Batch(Iteration(st, env), name, runner, kind));
  }

  lemma NoProgress(st: State, refuses: Address -> bool, name: string, runner: Address, kind: Kind)
    ensures Progress(st, st, [], 0, refuses, name, runner, kind)
  {
    hide Waiting;
    NoEntries();
    var w := Waiting(st.pending, name, runner, kind);
    assert w - w == {} && st.pending - {} == st.pending;
  }

  lemma IdleProgress(
    st: State, mid: State, i: seq<Entry>, runs: nat, refuses: Address -> bool, name: string, runner: Address, kind: Kind)
    requires Progress(st, mid, i, runs, refuses, name, runner, kind) && Waiting(mid.pending, name, runner, kind) == {}
    ensures Progress(st, mid, i, runs + 1, refuses, name, runner, kind)
  {
    hide Waiting, SettledAs, Own, Received, Balance;
  }

  lemma MoreProgress(
    st: State, mid: State, after: State, i: seq<Entry>, j: seq<Entry>, runs: nat, env: Env, name: string, runner: Address,
    kind: Kind)
    requires Sound(st) && Progress(st, mid, i, runs, env.refuses, name, runner, kind)
    requires
      var before, left := Waiting(mid.pending, name, runner, kind), Waiting(after.pending, name, runner, kind);
      && left <= before && |left| == LeftAfter(|before|, 1) && after.pending == mid.pending - (before - left)
      && Own(j, name, kind, env.refuses) && Moved(mid.bank, after.bank, ESCROW, j)
      && (forall k | k in before - left :: FiledAs(mid.pending[k], env.height, env.refuses(k.recipient), after))
      && (forall k | k !in before - left :: SameFile(mid, after, k))
      && after.distributions == mid.distributions
    ensures Progress(st, after, i + j, runs + 1, env.refuses, name, runner, kind)
  {
    hide Received, Balance, Volume, Waiting, Funded, SettledAs, FiledAs, SameFile;
    JournalAppend(i, j);
    var w0, w1, w2 := Waiting(st.pending, name, runner, kind), Waiting(mid.pending, name, runner, kind),
                      Waiting(after.pending, name, runner, kind);
    WaitingPending(st.pending, name, runner, kind);
    WaitingPending(mid.pending, name, runner, kind);
    assert after.pending == st.pending - (w0 - w2);
    forall k | k in w0 - w2 ensures SettledAs(st.pending[k], env.refuses(k.recipient), after) {
      assert st.pending[k].key == k;
      if k in w1 {
        FiledIsSettled(mid.pending[k], env.height, env.refuses(k.recipient), after);
      } else {
        SettledStays(st.pending[k], env.refuses(k.recipient), mid, after);
      }
    }
  }

  lemma FiledIsSettled(r: Record, height: nat, refused: bool, st: State)
    requires FiledAs(r, height, refused, st)
    ensures SettledAs(r, refused, st)
  {
  }

  lemma SettledStays(r: Record, refused: bool, st: State, after: State)
    requires SettledAs(r, refused, st) && SameFile(st, after, r.key)
    ensures SettledAs(r, refused, after)
  {
  }

  lemma WaitingPending(pending: map<Key, Record>, name: string, runner: Address, kind: Kind)
    ensures Waiting(pending, name, runner, kind) <= pending.Keys
  {
  }

  // ---------- from creation to the last payment ----------

  /** What a series pays an account is what it pays the account's record. */
  lemma {:induction false} ReceivedByKey(
    j: seq<Entry>, name: string, kind: Kind, refuses: Address -> bool, a: Address, d: Denom)
    requires Own(j, name, kind, refuses)
    ensures Received(j, a, d) == Total(j, Paid, Key(name, a, kind), d)
    ensures Total(j, if refuses(a) then Paid else Stranded, Key(name, a, kind), d) == 0
    ensures Total(j, Escrowed, Key(name, a, kind), d) == 0
  {
    if j != [] {
      var e := j[|j| - 1];
      assert e in j && forall f | f in j[..|j| - 1] :: f in j;
      ReceivedByKey(j[..|j| - 1], name, kind, refuses, a, d);
    }
  }

  ghost function KeysFor(outputs: seq<Output>, name: string, kind: Kind): set<Key> {
    set i | 0 <= i < |outputs| :: Key(name, outputs[i].recipient, kind)
  }

  lemma {:induction false} KeyCount(outputs: seq<Output>, name: string, kind: Kind)
    ensures |KeysFor(outputs, name, kind)| <= |outputs|
  {
    if outputs != [] {
      var init, k := outputs[..|outputs| - 1], Key(name, outputs[|outputs| - 1].recipient, kind);
      KeyCount(init, name, kind);
      forall q | q in KeysFor(outputs, name, kind) ensures q in KeysFor(init, name, kind) + {k} {
        var i :| 0 <= i < |outputs| && Key(name, outputs[i].recipient, kind) == q;
        if i < |init| { assert init[i] == outputs[i]; }
      }
      assert KeysFor(outputs, name, kind) <= KeysFor(init, name, kind) + {k};
      SubsetSize(KeysFor(outputs, name, kind), KeysFor(init, name, kind) + {k});
    }
  }

  lemma SubsetSize<T>(a: set<T>, b: set<T>)
    requires a <= b
    ensures |a| <= |b|
  {
    assert b == a + (b - a);
  }

  /** A record stands in the file of its outcome, under its runner, with so much of a denomination. */
  ghost predicate FiledWith(st: State, k: Key, refused: bool, runner: Address, d: Denom, amount: nat) {
    var store := if refused then st.failed else st.completed;
    && k in store && store[k].status == (if refused then Failed else Completed)
    && store[k].runner == runner && Amount(store[k].coins, d) == amount
  }

  /**
   Every recipient the bank does not refuse has received exactly its coins, the distributor has paid them all, no other
   account but the escrow has changed, every record is filed as completed or failed with the coins given to it, and
   what else was pending still is.
   */
  ghost predicate Delivered(
    st: State, last: State, refuses: Address -> bool, distributor: Address, name: string, runner: Address, kind: Kind,
    outputs: seq<Output>)
  {
    && (forall a, d | a != ESCROW ::
          Balance(last.bank, a, d) ==
          Balance(st.bank, a, d) - (if a == distributor then ClaimedInAll(outputs, d) else 0)
                                 + (if refuses(a) then 0 else Claimed(outputs, a, d)))
    && last.pending == st.pending
    && (forall a, d | Addressed(outputs, a) ::
          FiledWith(last, Key(name, a, kind), refuses(a), runner, d, Claimed(outputs, a, d)))
  }

  /**
   A distribution under a name and kind of which nothing is pending, followed by a tenth as many runs by its runner as it
   has outputs, rounded up, is delivered.
   */
  lemma Delivers(
    st: State, env: Env, distributor: Address, kind: Kind, runner: Address, outputs: seq<Output>, runs: seq<Event>,
    refuses: Address -> bool)
    requires Sound(st) && Vetted(st.pending) && AllProper(st.pending, env.parses) && distributor != ESCROW
    requires env.accepts == Validate && CreateAdmitted(env, distributor, kind, runner, outputs)
    requires forall k | k in st.pending :: k.name != DistributionName(env.height, distributor) || k.kind != kind
    requires CreateDistribution(st, env, distributor, kind, runner, outputs).Ok?
    requires ValidRun(CreateDistribution(st, env, distributor, kind, runner, outputs).value.0, runs)
    requires Series(runs, env.parses, refuses, DistributionName(env.height, distributor), runner, kind)
    requires |outputs| <= 10 * |runs|
    ensures
      var last := Final(CreateDistribution(st, env, distributor, kind, runner, outputs).value.0, runs).0;
      Delivered(st, last, refuses, distributor, DistributionName(env.height, distributor), runner, kind, outputs)
  {
    hide *;
    var name := DistributionName(env.height, distributor);
    var mid := CreateDistribution(st, env, distributor, kind, runner, outputs).value.0;
    CreationReached(st, env, distributor, kind, runner, outputs);
    CreationReady(st, env, distributor, kind, runner, outputs);
    SeriesSettles(mid, runs, env.parses, refuses, name, runner, kind);
    RunKeeps(mid, runs);
    var (last, j) := Final(mid, runs);
    SeriesDelivers(st, mid, last, j, |runs|, refuses, distributor, name, runner, kind, outputs);
  }

  /** The records of a creation are those of its outputs, the rest is as before, and the distributor has paid. */
  ghost predicate Ready(
    st: State, mid: State, distributor: Address, name: string, runner: Address, kind: Kind, outputs: seq<Output>)
  {
    && Waiting(mid.pending, name, runner, kind) == KeysFor(outputs, name, kind)
    && |KeysFor(outputs, name, kind)| <= |outputs|
    && mid.pending - KeysFor(outputs, name, kind) == st.pending
    && (forall a | Addressed(outputs, a) ::
          && Key(name, a, kind) in KeysFor(outputs, name, kind) && Key(name, a, kind) in mid.pending
          && mid.pending[Key(name, a, kind)].key == Key(name, a, kind) && mid.pending[Key(name, a, kind)].runner == runner)
    && (forall a :: Key(name, a, kind) !in st.pending)
    && (forall a, d :: PendingAmount(mid.pending, Key(name, a, kind), d) == Claimed(outputs, a, d))
    && (forall a, d | a != ESCROW ::
          Balance(mid.bank, a, d) == Balance(st.bank, a, d) - if a == distributor then ClaimedInAll(outputs, d) else 0)
  }

  lemma SeriesDelivers(
    st: State, mid: State, last: State, j: seq<Entry>, runs: nat, refuses: Address -> bool, distributor: Address,
    name: string, runner: Address, kind: Kind, outputs: seq<Output>)
    requires Ready(st, mid, distributor, name, runner, kind, outputs) && |outputs| <= 10 * runs
    requires Progress(mid, last, j, runs, refuses, name, runner, kind) && Balanced(mid.pending, last.pending, j)
    ensures Delivered(st, last, refuses, distributor, name, runner, kind, outputs)
  {
    hide Claimed, ClaimedInAll, Amount, Addressed, Balance, Waiting, Received, KeysFor, Own, Balanced, SettledAs,
         PendingAmount, FiledWith;
    var keys := KeysFor(outputs, name, kind);
    assert Waiting(last.pending, name, runner, kind) == {};
    assert keys - {} == keys;
    assert last.pending == st.pending;
    forall a, d ensures Received(j, a, d) == if refuses(a) then 0 else Claimed(outputs, a, d) {
      ReceivedInAll(mid.pending, last.pending, j, refuses, name, kind, a, d);
    }
    forall a, d | a != ESCROW
      ensures Balance(last.bank, a, d) ==
              Balance(st.bank, a, d) - (if a == distributor then ClaimedInAll(outputs, d) else 0)
                                     + (if refuses(a) then 0 else Claimed(outputs, a, d))
    {
      assert Balance(last.bank, a, d) == Balance(mid.bank, a, d) + Received(j, a, d);
    }
    forall a, d | Addressed(outputs, a)
      ensures FiledWith(last, Key(name, a, kind), refuses(a), runner, d, Claimed(outputs, a, d))
    {
      SettledWith(mid.pending, Key(name, a, kind), refuses(a), last, d);
    }
  }

  lemma ReceivedInAll(
    before: map<Key, Record>, after: map<Key, Record>, j: seq<Entry>, refuses: Address -> bool, name: string, kind: Kind,
    a: Address, d: Denom)
    requires Own(j, name, kind, refuses) && Balanced(before, after, j) && Key(name, a, kind) !in after
    ensures Received(j, a, d) == if refuses(a) then 0 else PendingAmount(before, Key(name, a, kind), d)
  {
    hide Own, Received, Total, Volume, Owed;
    ReceivedByKey(j, name, kind, refuses, a, d);
  }

  lemma SettledWith(pending: map<Key, Record>, k: Key, refused: bool, st: State, d: Denom)
    requires k in pending && pending[k].key == k && SettledAs(pending[k], refused, st)
    ensures FiledWith(st, k, refused, pending[k].runner, d, PendingAmount(pending, k, d))
  {
  }

  lemma CreationReached(st: State, env: Env, distributor: Address, kind: Kind, runner: Address, outputs: seq<Output>)
    requires Sound(st) && Vetted(st.pending) && AllProper(st.pending, env.parses) && distributor != ESCROW
    requires env.accepts == Validate && CreateAdmitted(env, distributor, kind, runner, outputs)
    requires CreateDistribution(st, env, distributor, kind, runner, outputs).Ok?
    ensures
      var mid := CreateDistribution(st, env, distributor, kind, runner, outputs).value.0;
      Sound(mid) && Vetted(mid.pending) && AllProper(mid.pending, env.parses)
  {
    hide Sound, Vetted, AllProper, Validate, Decimal, Move, TotalOutput, CreateDrops, Escrows, Has, Balanced, Moved;
    var name := DistributionName(env.height, distributor);
    CreateKeeps(st, env, distributor, kind, runner, outputs);
    DropsVetted(st.pending, env, name, kind, runner, outputs);
    DropsProper(st.pending, env, name, kind, runner, outputs);
  }

  lemma WrittenKeys(
    before: map<Key, Record>, after: map<Key, Record>, height: nat, name: string, kind: Kind, runner: Address,
    outputs: seq<Output>)
    requires (forall k | k in before :: k.name != name || k.kind != kind) && Filed(before)
    requires Written(before, after, height, name, kind, runner, outputs)
    ensures Waiting(after, name, runner, kind) == KeysFor(outputs, name, kind)
    ensures after - KeysFor(outputs, name, kind) == before
    ensures forall a | Addressed(outputs, a) ::
              && Key(name, a, kind) in KeysFor(outputs, name, kind) && Key(name, a, kind) in after
              && after[Key(name, a, kind)].key == Key(name, a, kind) && after[Key(name, a, kind)].runner == runner
  {
    forall k: Key
      ensures k in KeysFor(outputs, name, kind) <==> k.name == name && k.kind == kind && Addressed(outputs, k.recipient)
    {
      KeyFor(outputs, name, kind, k);
    }
    hide Addressed, KeysFor;
  }

  lemma KeyFor(outputs: seq<Output>, name: string, kind: Kind, k: Key)
    ensures k in KeysFor(outputs, name, kind) <==> k.name == name && k.kind == kind && Addressed(outputs, k.recipient)
  {
    if k in KeysFor(outputs, name, kind) {
      var i :| 0 <= i < |outputs| && Key(name, outputs[i].recipient, kind) == k;
    }
    if k.name == name && k.kind == kind && Addressed(outputs, k.recipient) {
      var i :| 0 <= i < |outputs| && outputs[i].recipient == k.recipient;
      assert Key(name, outputs[i].recipient, kind) == k;
    }
  }

  /** A creation under a fresh name leaves exactly its own records waiting. */
  lemma CreationReady(st: State, env: Env, distributor: Address, kind: Kind, runner: Address, outputs: seq<Output>)
    requires Sound(st) && distributor != ESCROW
    requires forall k | k in st.pending :: k.name != DistributionName(env.height, distributor) || k.kind != kind
    requires CreateDistribution(st, env, distributor, kind, runner, outputs).Ok?
    ensures
      var mid := CreateDistribution(st, env, distributor, kind, runner, outputs).value.0;
      Ready(st, mid, distributor, DistributionName(env.height, distributor), runner, kind, outputs)
  {
    hide Claimed, ClaimedInAll, Amount, Balance, Waiting, Owed, Addressed, KeysFor, CreateDistribution,
         DistributionName, Funded, Written;
    var name := DistributionName(env.height, distributor);
    var mid := CreateDistribution(st, env, distributor, kind, runner, outputs).value.0;
    CreationWrites(st, env, distributor, kind, runner, outputs);
    WrittenKeys(st.pending, mid.pending, env.height, name, kind, runner, outputs);
    KeyCount(outputs, name, kind);
  }

  // ---------- distributions in every run ----------

  /** Some creation of the run is of this height and distributor. */
  ghost predicate CreatedIn(events: seq<Event>, name: string) {
    exists i ::
      0 <= i < |events| && events[i].Create? && DistributionName(events[i].env.height, events[i].distributor) == name
  }

  lemma CreatedLast(events: seq<Event>, name: string)
    requires events != []
    ensures
      var ev := events[|events| - 1];
      CreatedIn(events, name) <==>
      CreatedIn(events[..|events| - 1], name) || (ev.Create? && DistributionName(ev.env.height, ev.distributor) == name)
  {
    hide DistributionName;
    var init := events[..|events| - 1];
    if i :| 0 <= i < |init| && init[i].Create? && DistributionName(init[i].env.height, init[i].distributor) == name {
      assert events[i] == init[i];
    }
    if i :| 0 <= i < |init| && events[i].Create? && DistributionName(events[i].env.height, events[i].distributor) == name {
      assert events[i] == init[i];
    }
  }

  /** From an empty escrow, every pending record was named by a creation of the run. */
  lemma {:induction false} RunNames(st: State, events: seq<Event>, k: Key)
    requires Fresh(st) && ValidRun(st, events) && k in Final(st, events).0.pending
    ensures CreatedIn(events, k.name)
  {
    hide CreateDrops, DistributeAll, Batch, TotalOutput, Move, Escrows, DistributionName, CreatedIn, Sound, Balanced, Moved,
         Lists, CreateAdmitted, RunAdmitted;
    if events != [] {
      var init, ev := events[..|events| - 1], events[|events| - 1];
      var mid := Final(st, init).0;
      CreatedLast(events, k.name);
      if k in mid.pending {
        RunNames(st, init, k);
      } else if ev.Create? {
        DropsWritten(mid.pending, ev.env, DistributionName(ev.env.height, ev.distributor), ev.kind, ev.runner, ev.outputs);
      } else {
        RunOnlyRemoves(st, init, ev, k);
      }
    }
  }

  lemma RunOnlyRemoves(st: State, events: seq<Event>, ev: Event, k: Key)
    requires Fresh(st) && ValidRun(st, events) && Admissible(Final(st, events).0, ev) && !ev.Create?
    requires k !in Final(st, events).0.pending
    ensures k !in Apply(Final(st, events).0, ev).0.pending
  {
    hide Final, ValidRun, DistributeAll, Batch, Balanced, Moved, Drawn, Panics, Funded;
    FreshSound(st);
    RunKeeps(st, events);
    var mid := Final(st, events).0;
    if ev.Run? {
      BatchDrawn(mid, ev.env, ev.name, ev.runner, ev.kind);
      BatchKeeps(mid, ev.env, Batch(Iteration(mid, ev.env), ev.name, ev.runner, ev.kind));
    }
  }

  /**
   From an empty escrow, after any run in which this distributor created nothing at this height: a distribution that is
   created, and then run by its runner a tenth as many times as it has outputs, rounded up, is delivered.
   */
  lemma EveryDistributionDelivers(
    st: State, events: seq<Event>, env: Env, distributor: Address, kind: Kind, runner: Address, outputs: seq<Output>,
    runs: seq<Event>, refuses: Address -> bool)
    requires Fresh(st) && ValidRun(st, events) && Validating(events) && Parsing(events, env.parses) && distributor != ESCROW
    requires forall i | 0 <= i < |events| && events[i].Create? ::
               events[i].env.height != env.height || events[i].distributor != distributor
    requires env.accepts == Validate && CreateAdmitted(env, distributor, kind, runner, outputs)
    requires CreateDistribution(Final(st, events).0, env, distributor, kind, runner, outputs).Ok?
    requires ValidRun(CreateDistribution(Final(st, events).0, env, distributor, kind, runner, outputs).value.0, runs)
    requires Series(runs, env.parses, refuses, DistributionName(env.height, distributor), runner, kind)
    requires |outputs| <= 10 * |runs|
    ensures
      var before := Final(st, events).0;
      var last := Final(CreateDistribution(before, env, distributor, kind, runner, outputs).value.0, runs).0;
      Delivered(before, last, refuses, distributor, DistributionName(env.height, distributor), runner, kind, outputs)
  {
    hide Final, ValidRun, CreateDistribution, DistributionName, Delivered, Series, CreateAdmitted, Validating, Parsing,
         Sound, Vetted, AllProper, Validate, Fresh;
    var before := Final(st, events).0;
    ReachedState(st, events, env.parses);
    forall k | k in before.pending ensures k.name != DistributionName(env.height, distributor) || k.kind != kind {
      RunNames(st, events, k);
      var i :|
        0 <= i < |events| && events[i].Create? && DistributionName(events[i].env.height, events[i].distributor) == k.name;
      if k.name == DistributionName(env.height, distributor) {
        NameTells(events[i].env.height, events[i].distributor, env.height, distributor);
      }
    }
    Delivers(before, env, distributor, kind, runner, outputs, runs, refuses);
  }
}
