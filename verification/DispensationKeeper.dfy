/**
 The dispensation keeper as it works: stores and balances changed in place by loops, proved to
 compute the messages of module Dispensation.
 */
module DispensationKeeper {
  import opened Dispensation

  lemma {:induction false} MatchingPrefix(records: seq<Record>, i: nat, name: string, runner: Address, kind: Kind)
    requires i <= |records|
    ensures Matching(records[..i], name, runner, kind) <= Matching(records, name, runner, kind)
    decreases |records|
  {
    if i < |records| {
      var init := records[..|records| - 1];
      MatchingPrefix(init, i, name, runner, kind);
      assert init[..i] == records[..i];
    } else {
      assert records[..i] == records;
    }
  }

  /** The first records that match, in store order, up to the batch limit. */
  method GetLimitedRecordsForRunner(records: seq<Record>, name: string, runner: Address, kind: Kind)
    returns (res: seq<Record>)
    ensures res == Batch(records, name, runner, kind)
  {
    res := [];
    var count, i := 0, 0;
    while i < |records| && count != MAX_RECORDS_PER_BLOCK
      invariant 0 <= i <= |records| && count == |res| <= MAX_RECORDS_PER_BLOCK
      invariant res == Matching(records[..i], name, runner, kind)
    {
      var dr := records[i];
      if Matches(dr, name, runner, kind) {
        res := res + [dr];
        count := count + 1;
      }
      i := i + 1;
      assert records[..i][..i - 1] == records[..i - 1];
    }
    MatchingPrefix(records, i, name, runner, kind);
    assert i == |records| ==> records[..i] == records;
  }

  /** The coin-wise total of the outputs; none for an empty list. */
  method ComputeTotalOutput(outputs: seq<Output>) returns (r: Result<Coins>)
    ensures r.Err? <==> outputs == []
    ensures r.Ok? ==> r.value == TotalOutput(outputs)
  {
    if |outputs| == 0 { return Err; }
    var total := outputs[0].coins;
    assert outputs[..1] == [outputs[0]] && outputs[..1][..0] == [];
    assert TotalOutput(outputs[..1]) == AddCoins(TotalOutput(outputs[..1][..0]), outputs[0].coins);
    assert total == AddCoins(map[], total);
    for i := 1 to |outputs|
      invariant total == TotalOutput(outputs[..i])
    {
      total := AddCoins(total, outputs[i].coins);
      assert outputs[..i + 1][..i] == outputs[..i];
    }
    assert outputs[..|outputs|] == outputs;
    return Ok(total);
  }

  lemma {:induction false} DropsFail(
    pending: map<Key, Record>, env: Env, name: string, kind: Kind, runner: Address, outputs: seq<Output>, i: nat)
    requires i <= |outputs| && CreateDrops(pending, env, name, kind, runner, outputs[..i]).Err?
    ensures CreateDrops(pending, env, name, kind, runner, outputs).Err?
  {
    if i < |outputs| {
      assert outputs[..|outputs| - 1][..i] == outputs[..i];
      DropsFail(pending, env, name, kind, runner, outputs[..|outputs| - 1], i);
    } else {
      assert outputs[..i] == outputs;
    }
  }

  lemma {:induction false} BatchFails(st: State, env: Env, batch: seq<Record>, i: nat)
    requires i <= |batch| && DistributeAll(st, env, batch[..i]).Err?
    ensures DistributeAll(st, env, batch).Err?
  {
    if i < |batch| {
      assert batch[..|batch| - 1][..i] == batch[..i];
      BatchFails(st, env, batch[..|batch| - 1], i);
    } else {
      assert batch[..i] == batch;
    }
  }

  class Keeper {
    var pending: map<Key, Record>
    var completed: map<Key, Record>
    var failed: map<Key, Record>
    var distributions: set<(string, Kind, Address)>
    var claims: set<(Address, Kind)>
    var bank: Bank
    ghost var journal: seq<Entry>

    ghost function View(): State
      reads this
    {
      State(pending, completed, failed, distributions, claims, bank)
    }

    /** A message that succeeded made its transition, wrote its journal and nothing else. */
    twostate predicate Did(r: Result<(State, seq<Entry>)>)
      reads this
    {
      r.Ok? && View() == r.value.0 && journal == old(journal) + r.value.1
    }

    constructor ()
      ensures View() == State(map[], map[], map[], {}, {}, map[]) && journal == []
    {
      pending, completed, failed, distributions, claims, bank := map[], map[], map[], {}, {}, map[];
      journal := [];
    }

    method SendCoins(from: Address, to: Address, coins: Coins) returns (ok: bool)
      modifies this`bank
      ensures ok <==> Has(old(bank), from, coins)
      ensures bank == if ok then Move(old(bank), from, to, coins) else old(bank)
    {
      ok := Has(bank, from, coins);
      if ok { bank := Move(bank, from, to, coins); }
    }

    method ChangeRecordStatus(env: Env, record: Record, status: Status) returns (ok: bool)
      requires status != Pending
      modifies this`pending, this`completed, this`failed
      ensures (View(), ok) == ChangeStatus(old(View()), env, record, status)
    {
      var dr := record.(status := status, end := env.height);
      if !env.accepts(dr) { return false; }
      if status == Completed {
        completed := completed[dr.key := dr];
      } else {
        failed := failed[dr.key := dr];
      }
      if record.key !in pending { return false; }
      pending := pending - {record.key};
      return true;
    }

    /** Pays one record; false stands for a panic. */
    method DistributeDrop(env: Env, record: Record) returns (ok: bool)
      modifies this
      ensures ok <==> Distribute(old(View()), env, record).Ok?
      ensures ok ==> Did(Distribute(old(View()), env, record))
    {
      var recipient := record.key.recipient;
      if !env.parses(recipient) { return true; }
      var sent := false;
      if !env.refuses(recipient) { sent := SendCoins(ESCROW, recipient, record.coins); }
      if !sent {
        ok := ChangeRecordStatus(env, record, Failed);
        if ok { journal := journal + [Entry(Stranded, record.key, record.coins)]; }
        return ok;
      }
      var filed := ChangeRecordStatus(env, record, Completed);
      if !filed {
        ok := SendCoins(recipient, ESCROW, record.coins);
        return ok;
      }
      if SupportsClaim(record.key.kind) { claims := claims - {(recipient, record.key.kind)}; }
      journal := journal + [Entry(Paid, record.key, record.coins)];
      return true;
    }

    /** Walks the pending store in its order. */
    method PendingRecords(env: Env) returns (records: seq<Record>)
      requires forall k | k in env.order :: k in pending
      ensures records == Iteration(View(), env)
    {
      records := [];
      for i := 0 to |env.order|
        invariant records == Iteration(View(), env)[..i]
      {
        assert env.order[i] in env.order;
        records := records + [pending[env.order[i]]];
      }
    }

    /** Pays a batch in order; false stands for a panic. */
    method PayBatch(env: Env, batch: seq<Record>) returns (ok: bool)
      modifies this
      ensures ok <==> DistributeAll(old(View()), env, batch).Ok?
      ensures ok ==> Did(DistributeAll(old(View()), env, batch))
    {
      hide Distribute;
      for i := 0 to |batch|
        invariant Did(DistributeAll(old(View()), env, batch[..i]))
      {
        assert batch[..i + 1][..i] == batch[..i];
        ok := DistributeDrop(env, batch[i]);
        if !ok {
          BatchFails(old(View()), env, batch, i + 1);
          return false;
        }
      }
      assert batch[..|batch|] == batch;
      return true;
    }

    method DistributeDrops(env: Env, name: string, runner: Address, kind: Kind) returns (ok: bool)
      requires forall k | k in env.order :: k in pending
      modifies this
      ensures ok <==> RunDistribution(old(View()), env, name, runner, kind).Ok?
      ensures ok ==> Did(RunDistribution(old(View()), env, name, runner, kind))
    {
      hide Batch, DistributeAll;
      var records := PendingRecords(env);
      var batch := GetLimitedRecordsForRunner(records, name, runner, kind);
      ok := PayBatch(env, batch);
    }

    method WriteDrops(env: Env, name: string, kind: Kind, runner: Address, outputs: seq<Output>) returns (ok: bool)
      modifies this`pending
      ensures ok <==> CreateDrops(old(pending), env, name, kind, runner, outputs).Ok?
      ensures ok ==> pending == CreateDrops(old(pending), env, name, kind, runner, outputs).value
    {
      for i := 0 to |outputs|
        invariant CreateDrops(old(pending), env, name, kind, runner, outputs[..i]) == Ok(pending)
      {
        assert outputs[..i + 1][..i] == outputs[..i];
        var receiver := outputs[i];
        var key := Key(name, receiver.recipient, kind);
        var record := Record(Pending, key, receiver.coins, runner, env.height, -1);
        if key in pending {
          record := record.(coins := AddCoins(record.coins, pending[key].coins));
        }
        if !env.accepts(record) {
          DropsFail(old(pending), env, name, kind, runner, outputs, i + 1);
          return false;
        }
        pending := pending[key := record];
      }
      assert outputs[..|outputs|] == outputs;
      return true;
    }

    method CreateDistributionHandler(env: Env, distributor: Address, kind: Kind, runner: Address, outputs: seq<Output>)
      returns (ok: bool)
      modifies this
      ensures ok <==> CreateDistribution(old(View()), env, distributor, kind, runner, outputs).Ok?
      ensures ok ==> Did(CreateDistribution(old(View()), env, distributor, kind, runner, outputs))
    {
      hide TotalOutput, Move, Has, CreateDrops, Escrows, DistributionName;
      var name := DistributionName(env.height, distributor);
      if (name, kind, runner) in distributions { return false; }
      distributions := distributions + {(name, kind, runner)};
      var total := ComputeTotalOutput(outputs);
      if total.Err? { return false; }
      if !env.parses(distributor) { return false; }
      ok := SendCoins(distributor, ESCROW, total.value);
      if !ok { return false; }
      ok := WriteDrops(env, name, kind, runner, outputs);
      journal := journal + Escrows(name, kind, outputs);
    }

    /** Runs a distribution; a panic leaves everything as it was. */
    method Run(env: Env, name: string, runner: Address, kind: Kind) returns (ok: bool)
      requires forall k | k in env.order :: k in pending
      modifies this
      ensures ok <==> RunDistribution(old(View()), env, name, runner, kind).Ok?
      ensures if ok then Did(RunDistribution(old(View()), env, name, runner, kind))
              else View() == old(View()) && journal == old(journal)
    {
      var p, c, f, b, cl := pending, completed, failed, bank, claims;
      var ds := distributions;
      ok := DistributeDrops(env, name, runner, kind);
      if !ok {
        pending, completed, failed, bank, claims, distributions := p, c, f, b, cl, ds;
        journal := old(journal);
      }
    }

    /** Creates a distribution; an error leaves everything as it was. */
    method Create(env: Env, distributor: Address, kind: Kind, runner: Address, outputs: seq<Output>) returns (ok: bool)
      modifies this
      ensures ok <==> CreateDistribution(old(View()), env, distributor, kind, runner, outputs).Ok?
      ensures if ok then Did(CreateDistribution(old(View()), env, distributor, kind, runner, outputs))
              else View() == old(View()) && journal == old(journal)
    {
      var p, c, f, b, cl := pending, completed, failed, bank, claims;
      var ds := distributions;
      ok := CreateDistributionHandler(env, distributor, kind, runner, outputs);
      if !ok {
        pending, completed, failed, bank, claims, distributions := p, c, f, b, cl, ds;
        journal := old(journal);
      }
    }
  }
}
