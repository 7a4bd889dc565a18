/**
 The escrow's books: what every message keeps true, and what a whole run adds up to.
 */
module Escrow {
  import opened Dispensation
  import opened Sums

  // ---------- totals ----------

  ghost function PendingAmount(pending: map<Key, Record>, k: Key, d: Denom): nat {
    if k in pending then Amount(pending[k].coins, d) else 0
  }

  ghost function Amounts(pending: map<Key, Record>, d: Denom): map<Key, int> {
    map k | k in pending :: Amount(pending[k].coins, d)
  }

  /** What paying every pending record at once would take. */
  ghost function Owed(pending: map<Key, Record>, d: Denom): int { Sum(Amounts(pending, d)) }

  /** What the journal moved under a tag for a record. */
  ghost function Total(j: seq<Entry>, tag: Tag, k: Key, d: Denom): nat {
    if j == [] then 0
    else
      var e := j[|j| - 1];
      Total(j[..|j| - 1], tag, k, d) + if e.tag == tag && e.key == k then Amount(e.coins, d) else 0
  }

  /** What the journal paid to an account. */
  ghost function Received(j: seq<Entry>, a: Address, d: Denom): nat {
    if j == [] then 0
    else
      var e := j[|j| - 1];
      Received(j[..|j| - 1], a, d) + if e.tag == Paid && e.key.recipient == a then Amount(e.coins, d) else 0
  }

  /** What the journal moved under a tag in all. */
  ghost function Volume(j: seq<Entry>, tag: Tag, d: Denom): nat {
    if j == [] then 0
    else
      var e := j[|j| - 1];
      Volume(j[..|j| - 1], tag, d) + if e.tag == tag then Amount(e.coins, d) else 0
  }

  lemma {:induction false} JournalAppend(i: seq<Entry>, j: seq<Entry>)
    ensures forall tag, k, d :: Total(i + j, tag, k, d) == Total(i, tag, k, d) + Total(j, tag, k, d)
    ensures forall a, d :: Received(i + j, a, d) == Received(i, a, d) + Received(j, a, d)
    ensures forall tag, d :: Volume(i + j, tag, d) == Volume(i, tag, d) + Volume(j, tag, d)
    decreases |j|
  {
    if j == [] {
      assert i + j == i;
    } else {
      JournalAppend(i, j[..|j| - 1]);
      assert (i + j)[..|i + j| - 1] == i + j[..|j| - 1];
    }
  }

  // ---------- the books ----------

  /** Every pending record is filed under its own key, with pending status. */
  ghost predicate Filed(pending: map<Key, Record>) {
    forall k | k in pending :: pending[k].key == k && pending[k].status == Pending
  }

  /** The escrow account covers every pending record at once. */
  ghost predicate Funded(st: State) {
    forall d :: Owed(st.pending, d) <= Balance(st.bank, ESCROW, d)
  }

  ghost predicate Sound(st: State) { Filed(st.pending) && Funded(st) }

  /**
   A step's journal accounts for the step: record by record, what was pending plus what came in is
   what is pending plus what was paid or stranded; in total likewise.
   */
  ghost predicate Balanced(before: map<Key, Record>, after: map<Key, Record>, j: seq<Entry>) {
    && (forall k, d ::
          PendingAmount(before, k, d) + Total(j, Escrowed, k, d) ==
          PendingAmount(after, k, d) + Total(j, Paid, k, d) + Total(j, Stranded, k, d))
    && (forall d :: Owed(before, d) + Volume(j, Escrowed, d) == Owed(after, d) + Volume(j, Paid, d) + Volume(j, Stranded, d))
  }

  /**
   The bank moved as the journal says: the distributor pays in what was escrowed, recipients get
   what was paid to them, the escrow account holds the difference, and nobody else is touched.
   */
  ghost predicate Moved(before: Bank, after: Bank, distributor: Address, j: seq<Entry>) {
    && (forall a, d | a != ESCROW ::
          Balance(after, a, d) ==
          Balance(before, a, d) - (if a == distributor then Volume(j, Escrowed, d) else 0) + Received(j, a, d))
    && (forall d ::
          Balance(after, ESCROW, d) ==
          Balance(before, ESCROW, d) + Volume(j, Escrowed, d) - Volume(j, Paid, d) + Received(j, ESCROW, d))
  }

  lemma OwedUpdate(pending: map<Key, Record>, k: Key, r: Record, d: Denom)
    ensures Owed(pending[k := r], d) == Owed(pending, d) - PendingAmount(pending, k, d) + Amount(r.coins, d)
  {
    assert Amounts(pending[k := r], d) == Amounts(pending, d)[k := Amount(r.coins, d)];
    SumUpdate(Amounts(pending, d), k, Amount(r.coins, d));
  }

  lemma OwedRemove(pending: map<Key, Record>, k: Key, d: Denom)
    requires k in pending
    ensures Owed(pending - {k}, d) == Owed(pending, d) - Amount(pending[k].coins, d)
    ensures Amount(pending[k].coins, d) <= Owed(pending, d)
  {
    assert Amounts(pending - {k}, d) == Amounts(pending, d) - {k};
    SumRemove(Amounts(pending, d), k);
    SumNonNegative(Amounts(pending - {k}, d));
  }

  // ---------- creating ----------

  lemma {:induction false} TotalOutputIsVolume(name: string, kind: Kind, outputs: seq<Output>, d: Denom)
    ensures Amount(TotalOutput(outputs), d) == Volume(Escrows(name, kind, outputs), Escrowed, d)
  {
    if outputs != [] {
      TotalOutputIsVolume(name, kind, outputs[..|outputs| - 1], d);
      var j := Escrows(name, kind, outputs);
      assert j[..|j| - 1] == Escrows(name, kind, outputs[..|outputs| - 1]);
    }
  }

  lemma {:induction false} EscrowsOnly(name: string, kind: Kind, outputs: seq<Output>)
    ensures forall k, d :: Total(Escrows(name, kind, outputs), Paid, k, d) == 0
    ensures forall k, d :: Total(Escrows(name, kind, outputs), Stranded, k, d) == 0
    ensures forall a, d :: Received(Escrows(name, kind, outputs), a, d) == 0
    ensures forall d :: Volume(Escrows(name, kind, outputs), Paid, d) == 0
    ensures forall d :: Volume(Escrows(name, kind, outputs), Stranded, d) == 0
  {
    if outputs != [] {
      EscrowsOnly(name, kind, outputs[..|outputs| - 1]);
      var j := Escrows(name, kind, outputs);
      assert j[..|j| - 1] == Escrows(name, kind, outputs[..|outputs| - 1]);
    }
  }

  lemma {:induction false} DropsFiled(
    pending: map<Key, Record>, env: Env, name: string, kind: Kind, runner: Address, outputs: seq<Output>)
    requires Filed(pending)
    requires CreateDrops(pending, env, name, kind, runner, outputs).Ok?
    ensures Filed(CreateDrops(pending, env, name, kind, runner, outputs).value)
  {
    if outputs != [] { DropsFiled(pending, env, name, kind, runner, outputs[..|outputs| - 1]); }
  }

  /** Merged or not, a drop adds its output's coins to its own record and to the debt, and nothing elsewhere. */
  lemma DropAdds(
    pending: map<Key, Record>, height: nat, name: string, kind: Kind, runner: Address, o: Output, k: Key, d: Denom)
    ensures
      var dr := DropRecord(pending, height, name, kind, runner, o);
      && PendingAmount(pending[dr.key := dr], k, d) ==
         PendingAmount(pending, k, d) + (if k == Key(name, o.recipient, kind) then Amount(o.coins, d) else 0)
      && Owed(pending[dr.key := dr], d) == Owed(pending, d) + Amount(o.coins, d)
  {
    hide Owed;
    var dr := DropRecord(pending, height, name, kind, runner, o);
    OwedUpdate(pending, dr.key, dr, d);
  }

  lemma EscrowsLast(name: string, kind: Kind, outputs: seq<Output>, k: Key, d: Denom)
    requires outputs != []
    ensures
      var init, o := outputs[..|outputs| - 1], outputs[|outputs| - 1];
      && Total(Escrows(name, kind, outputs), Escrowed, k, d) ==
         Total(Escrows(name, kind, init), Escrowed, k, d) +
         (if k == Key(name, o.recipient, kind) then Amount(o.coins, d) else 0)
      && Volume(Escrows(name, kind, outputs), Escrowed, d) ==
         Volume(Escrows(name, kind, init), Escrowed, d) + Amount(o.coins, d)
  {
    hide Amount;
    var j := Escrows(name, kind, outputs);
    assert j[..|j| - 1] == Escrows(name, kind, outputs[..|outputs| - 1]);
  }

  /** Every output adds exactly its coins to the pending record of its recipient. */
  lemma {:induction false} DropsAdd(
    pending: map<Key, Record>, env: Env, name: string, kind: Kind, runner: Address, outputs: seq<Output>, k: Key, d: Denom)
    requires CreateDrops(pending, env, name, kind, runner, outputs).Ok?
    ensures
      var after := CreateDrops(pending, env, name, kind, runner, outputs).value;
      var j := Escrows(name, kind, outputs);
      && PendingAmount(after, k, d) == PendingAmount(pending, k, d) + Total(j, Escrowed, k, d)
      && Owed(after, d) == Owed(pending, d) + Volume(j, Escrowed, d)
  {
    hide Owed, PendingAmount, Amount, DropRecord, Total, Volume;
    if outputs != [] {
      var init, o := outputs[..|outputs| - 1], outputs[|outputs| - 1];
      DropsAdd(pending, env, name, kind, runner, init, k, d);
      var mid := CreateDrops(pending, env, name, kind, runner, init).value;
      DropAdds(mid, env.height, name, kind, runner, o, k, d);
      EscrowsLast(name, kind, outputs, k, d);
    } else {
      NoEntries();
    }
  }

  lemma CreateKeeps(
    st: State, env: Env, distributor: Address, kind: Kind, runner: Address, outputs: seq<Output>)
    requires Sound(st) && distributor != ESCROW
    requires CreateDistribution(st, env, distributor, kind, runner, outputs).Ok?
    ensures
      var (after, j) := CreateDistribution(st, env, distributor, kind, runner, outputs).value;
      Sound(after) && Balanced(st.pending, after.pending, j) && Moved(st.bank, after.bank, distributor, j)
  {
    hide Owed, PendingAmount, Amount, Balance, Move, TotalOutput, CreateDrops, Escrows, Total, Volume, Received;
    var (after, j) := CreateDistribution(st, env, distributor, kind, runner, outputs).value;
    var name := DistributionName(env.height, distributor);
    EscrowsOnly(name, kind, outputs);
    MoveBalances(st.bank, distributor, ESCROW, TotalOutput(outputs));
    DropsFiled(st.pending, env, name, kind, runner, outputs);
    forall k, d
      ensures PendingAmount(after.pending, k, d) == PendingAmount(st.pending, k, d) + Total(j, Escrowed, k, d)
    {
      DropsAdd(st.pending, env, name, kind, runner, outputs, k, d);
    }
    forall d
      ensures Owed(after.pending, d) == Owed(st.pending, d) + Volume(j, Escrowed, d)
      ensures Amount(TotalOutput(outputs), d) == Volume(j, Escrowed, d)
    {
      DropsAdd(st.pending, env, name, kind, runner, outputs, Key("", "", kind), d);
      TotalOutputIsVolume(name, kind, outputs, d);
    }
  }

  // ---------- paying ----------

  /** How a pending record leaves a sound state. */
  datatype Fate = Skipped | Settled | Refused | Reclaimed

  function FateOf(env: Env, r: Record): Fate {
    if !env.parses(r.key.recipient) then Skipped
    else if env.refuses(r.key.recipient) then Refused
    else if env.accepts(Closed(r, env.height, Completed)) then Settled
    else Reclaimed
  }

  /** The records a batch run takes out of the pending store. */
  predicate Leaves(env: Env, r: Record) { FateOf(env, r) in {Settled, Refused} }

  /** The one panic left in a sound state: a refused record that cannot be marked failed. */
  predicate Panics(env: Env, r: Record) {
    FateOf(env, r) == Refused && !env.accepts(Closed(r, env.height, Failed))
  }

  /** The escrow can pay any one pending record. */
  lemma CanPay(st: State, k: Key)
    requires Sound(st) && k in st.pending
    ensures Has(st.bank, ESCROW, st.pending[k].coins)
  {
    forall d | d in st.pending[k].coins
      ensures st.pending[k].coins[d] <= Balance(st.bank, ESCROW, d)
    {
      OwedRemove(st.pending, k, d);
    }
  }

  /** What each fate leaves behind: the journal entry, the pending store and the record's new file. */
  lemma FateDecides(st: State, env: Env, r: Record)
    requires Sound(st) && r.key in st.pending && st.pending[r.key] == r
    ensures Distribute(st, env, r).Err? <==> Panics(env, r)
    ensures Distribute(st, env, r).Ok? ==>
              var (after, j) := Distribute(st, env, r).value;
              && after.pending == (if Leaves(env, r) then st.pending - {r.key} else st.pending)
              && after.distributions == st.distributions
              && match FateOf(env, r) {
                   case Settled =>
                     && j == [Entry(Paid, r.key, r.coins)]
                     && after.completed == st.completed[r.key := r.(status := Completed, end := env.height)]
                     && after.failed == st.failed
                     && after.claims == st.claims - (if r.key.kind == Airdrop || r.key.kind == Unspecified then {}
                                                     else {(r.key.recipient, r.key.kind)})
                   case Refused =>
                     && j == [Entry(Stranded, r.key, r.coins)]
                     && after.failed == st.failed[r.key := r.(status := Failed, end := env.height)]
                     && after.completed == st.completed && after.claims == st.claims
                   case _ =>
                     j == [] && after.completed == st.completed && after.failed == st.failed && after.claims == st.claims
                 }
  {
    hide Sound, Owed, Move, Balance;
    CanPay(st, r.key);
    if Pays(env, st.bank, r) { CanReclaim(st.bank, r); }
  }

  /** Coins just paid can be taken back. */
  lemma CanReclaim(bank: Bank, r: Record)
    requires Has(bank, ESCROW, r.coins)
    ensures Has(Move(bank, ESCROW, r.key.recipient, r.coins), r.key.recipient, r.coins)
  {
    MoveBalances(bank, ESCROW, r.key.recipient, r.coins);
  }

  lemma SingleEntry(e: Entry)
    ensures forall tag, k, d :: Total([e], tag, k, d) == if e.tag == tag && e.key == k then Amount(e.coins, d) else 0
    ensures forall a, d :: Received([e], a, d) == if e.tag == Paid && e.key.recipient == a then Amount(e.coins, d) else 0
    ensures forall tag, d :: Volume([e], tag, d) == if e.tag == tag then Amount(e.coins, d) else 0
  {
    assert [e][..0] == [];
  }

  lemma PaidMoves(bank: Bank, r: Record)
    requires Has(bank, ESCROW, r.coins)
    ensures Moved(bank, Move(bank, ESCROW, r.key.recipient, r.coins), ESCROW, [Entry(Paid, r.key, r.coins)])
  {
    hide Move, Balance, Amount, Total, Volume, Received;
    MoveBalances(bank, ESCROW, r.key.recipient, r.coins);
    SingleEntry(Entry(Paid, r.key, r.coins));
  }

  /** Paying and taking back leaves every balance as it was. */
  lemma ReclaimUndoes(bank: Bank, r: Record)
    requires Has(bank, ESCROW, r.coins)
    ensures
      var paid := Move(bank, ESCROW, r.key.recipient, r.coins);
      && Has(paid, r.key.recipient, r.coins)
      && Moved(bank, Move(paid, r.key.recipient, ESCROW, r.coins), ESCROW, [])
  {
    hide Move, Balance, Amount, Total, Volume, Received;
    var paid := Move(bank, ESCROW, r.key.recipient, r.coins);
    CanReclaim(bank, r);
    MoveBalances(bank, ESCROW, r.key.recipient, r.coins);
    MoveBalances(paid, r.key.recipient, ESCROW, r.coins);
    NoEntries();
  }

  /** Whichever fate a record meets, the bank moves by exactly its journal entry. */
  lemma PaymentMoves(st: State, env: Env, r: Record)
    requires Sound(st) && r.key in st.pending && st.pending[r.key] == r && !Panics(env, r)
    ensures Distribute(st, env, r).Ok?
    ensures var (after, j) := Distribute(st, env, r).value; Moved(st.bank, after.bank, ESCROW, j)
  {
    hide Sound, Move, Moved, Balance, Has;
    FateDecides(st, env, r);
    CanPay(st, r.key);
    match FateOf(env, r) {
      case Settled => PaidMoves(st.bank, r);
      case Reclaimed => ReclaimUndoes(st.bank, r);
      case Refused => StillBank(st.bank, [Entry(Stranded, r.key, r.coins)]);
      case Skipped => StillBank(st.bank, []);
    }
  }

  lemma StillBank(bank: Bank, j: seq<Entry>)
    requires |j| <= 1 && forall e | e in j :: e.tag == Stranded
    ensures Moved(bank, bank, ESCROW, j)
  {
    NoEntries();
    if j != [] {
      assert j[0] in j && j == [j[0]];
      SingleEntry(j[0]);
    }
  }

  lemma NoEntries()
    ensures forall tag, k, d :: Total([], tag, k, d) == 0
    ensures forall a, d :: Received([], a, d) == 0
    ensures forall tag, d :: Volume([], tag, d) == 0
  {
  }

  /** Whichever fate a record meets, the books stay balanced. */
  lemma PaymentBalances(st: State, env: Env, r: Record)
    requires Sound(st) && r.key in st.pending && st.pending[r.key] == r && !Panics(env, r)
    ensures Distribute(st, env, r).Ok?
    ensures var (after, j) := Distribute(st, env, r).value; Balanced(st.pending, after.pending, j) && Filed(after.pending)
  {
    hide Funded, Owed, Move, Balance, Amount, Total, Volume, Received;
    FateDecides(st, env, r);
    var (after, j) := Distribute(st, env, r).value;
    hide Distribute;
    forall d ensures Owed(st.pending - {r.key}, d) == Owed(st.pending, d) - Amount(r.coins, d) {
      OwedRemove(st.pending, r.key, d);
    }
    NoEntries();
    if j != [] { SingleEntry(j[0]); }
  }

  /** Balanced books and a bank that follows the journal keep the escrow funded. */
  lemma StaysFunded(before: State, after: State, distributor: Address, j: seq<Entry>)
    requires Funded(before) && Balanced(before.pending, after.pending, j) && Moved(before.bank, after.bank, distributor, j)
    ensures Funded(after)
  {
    hide Owed, Balance, Volume, Received;
  }

  lemma DistributeKeeps(st: State, env: Env, r: Record)
    requires Sound(st) && r.key in st.pending && st.pending[r.key] == r && !Panics(env, r)
    ensures Distribute(st, env, r).Ok?
    ensures
      var (after, j) := Distribute(st, env, r).value;
      Sound(after) && Balanced(st.pending, after.pending, j) && Moved(st.bank, after.bank, ESCROW, j)
  {
    hide Distribute, Filed, Balanced, Moved, Funded;
    PaymentMoves(st, env, r);
    PaymentBalances(st, env, r);
    var (after, j) := Distribute(st, env, r).value;
    StaysFunded(st, after, ESCROW, j);
  }

  // ---------- batches ----------

  /** A batch lists pending records, no key twice. */
  ghost predicate Drawn(st: State, batch: seq<Record>) {
    && (forall i | 0 <= i < |batch| :: batch[i].key in st.pending && st.pending[batch[i].key] == batch[i])
    && (forall i, j | 0 <= i < j < |batch| :: batch[i].key != batch[j].key)
  }

  /** The keys of a batch that its run takes out of the pending store. */
  ghost function Gone(env: Env, batch: seq<Record>): set<Key> {
    set i | 0 <= i < |batch| && Leaves(env, batch[i]) :: batch[i].key
  }

  lemma GoneLast(env: Env, batch: seq<Record>)
    requires batch != []
    ensures
      var r := batch[|batch| - 1];
      Gone(env, batch) == Gone(env, batch[..|batch| - 1]) + (if Leaves(env, r) then {r.key} else {})
  {
    var init, r := batch[..|batch| - 1], batch[|batch| - 1];
    forall k | k in Gone(env, batch) ensures k in Gone(env, init) + (if Leaves(env, r) then {r.key} else {}) {
      var i :| 0 <= i < |batch| && Leaves(env, batch[i]) && batch[i].key == k;
      if i < |init| { assert init[i] == batch[i]; }
    }
    forall k | k in Gone(env, init) ensures k in Gone(env, batch) {
      var i :| 0 <= i < |init| && Leaves(env, init[i]) && init[i].key == k;
      assert batch[i] == init[i];
    }
  }

  lemma Chain(a: State, b: State, c: State, i: seq<Entry>, j: seq<Entry>)
    requires Balanced(a.pending, b.pending, i) && Moved(a.bank, b.bank, ESCROW, i)
    requires Balanced(b.pending, c.pending, j) && Moved(b.bank, c.bank, ESCROW, j)
    requires forall d :: Volume(i, Escrowed, d) == 0 && Volume(j, Escrowed, d) == 0
    ensures Balanced(a.pending, c.pending, i + j) && Moved(a.bank, c.bank, ESCROW, i + j)
    ensures forall d :: Volume(i + j, Escrowed, d) == 0
  {
    hide Owed, PendingAmount, Balance, Total, Volume, Received;
    JournalAppend(i, j);
  }

  /**
   A batch panics exactly on a refused record that cannot be marked failed.  Otherwise it removes
   exactly the records that leave, and its journal accounts for the records and the bank.
   */
  lemma {:induction false} BatchKeeps(st: State, env: Env, batch: seq<Record>)
    requires Sound(st) && Drawn(st, batch)
    ensures DistributeAll(st, env, batch).Err? <==> exists r :: r in batch && Panics(env, r)
    ensures DistributeAll(st, env, batch).Ok? ==>
              var (after, j) := DistributeAll(st, env, batch).value;
              && Sound(after) && Balanced(st.pending, after.pending, j) && Moved(st.bank, after.bank, ESCROW, j)
              && after.pending == st.pending - Gone(env, batch)
              && (forall d :: Volume(j, Escrowed, d) == 0)
  {
    hide Distribute, Sound, Balanced, Moved, Panics, Total, Volume, Received, Leaves;
    if batch == [] {
      EmptyBatch(st, env);
    } else {
      var init, r := batch[..|batch| - 1], batch[|batch| - 1];
      BatchKeeps(st, env, init);
      assert forall s :: s in batch <==> s in init || s == r by { assert batch == init + [r]; }
      if DistributeAll(st, env, init).Ok? {
        var (mid, i) := DistributeAll(st, env, init).value;
        assert r.key !in Gone(env, init);
        FateDecides(mid, env, r);
        if !Panics(env, r) {
          DistributeKeeps(mid, env, r);
          var (after, j) := Distribute(mid, env, r).value;
          NoEscrowEntry(mid, env, r);
          Chain(st, mid, after, i, j);
          GoneLast(env, batch);
          assert after.pending == st.pending - Gone(env, batch);
        }
      }
    }
  }

  lemma EmptyBatch(st: State, env: Env)
    ensures Balanced(st.pending, st.pending, []) && Moved(st.bank, st.bank, ESCROW, [])
    ensures forall d :: Volume([], Escrowed, d) == 0
    ensures st.pending == st.pending - Gone(env, [])
  {
  }

  lemma NoEscrowEntry(st: State, env: Env, r: Record)
    requires Sound(st) && r.key in st.pending && st.pending[r.key] == r && Distribute(st, env, r).Ok?
    ensures forall d :: Volume(Distribute(st, env, r).value.1, Escrowed, d) == 0
  {
    hide Sound, Distribute;
    FateDecides(st, env, r);
  }

  /**
   At every point inside a batch the escrow still covers everything pending, so the next payment can
   only fail because the bank refuses its recipient.
   */
  lemma NeverShort(st: State, env: Env, batch: seq<Record>, i: nat)
    requires Sound(st) && Drawn(st, batch) && i < |batch|
    requires DistributeAll(st, env, batch[..i]).Ok?
    ensures
      var mid := DistributeAll(st, env, batch[..i]).value.0;
      && Funded(mid)
      && (Pays(env, mid.bank, batch[i]) <==> !env.refuses(batch[i].key.recipient))
  {
    hide DistributeAll, Funded, Balanced, Moved;
    BatchKeeps(st, env, batch[..i]);
    var mid := DistributeAll(st, env, batch[..i]).value.0;
    assert batch[i].key !in Gone(env, batch[..i]);
    CanPay(mid, batch[i].key);
  }
}
