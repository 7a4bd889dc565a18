/**
 The dispensation escrow (x/dispensation/keeper): funds are collected from a distributor,
 split into pending records, and paid out in bounded batches, a record becoming completed or
 failed.  Messages are functions to the next state together with the journal entries they write.
 */
module Dispensation {
  type Address = string
  type Denom = string
  type Coins = map<Denom, nat>

  /** The account that holds escrowed funds. */
  const ESCROW: Address := "dispensation"

  const MAX_RECORDS_PER_BLOCK: nat := 10

  datatype Kind = Unspecified | Airdrop | LiquidityMining | ValidatorSubsidy
  datatype Status = Pending | Completed | Failed

  /** What identifies a record under its status; the store key is injective in it. */
  datatype Key = Key(name: string, recipient: Address, kind: Kind)

  datatype Record = Record(status: Status, key: Key, coins: Coins, runner: Address, start: nat, end: int)

  // ---------- coins and bank ----------

  function Amount(c: Coins, d: Denom): nat { if d in c then c[d] else 0 }

  function AddCoins(a: Coins, b: Coins): (c: Coins)
    ensures forall d :: Amount(c, d) == Amount(a, d) + Amount(b, d)
  {
    map d | d in a.Keys + b.Keys :: Amount(a, d) + Amount(b, d)
  }

  type Bank = map<(Address, Denom), nat>

  function Balance(bank: Bank, a: Address, d: Denom): nat { if (a, d) in bank then bank[(a, d)] else 0 }

  predicate Has(bank: Bank, a: Address, c: Coins) { forall d | d in c :: c[d] <= Balance(bank, a, d) }

  /** A transfer of several coins at once. */
  function Move(bank: Bank, from: Address, to: Address, c: Coins): Bank
    requires Has(bank, from, c)
  {
    if from == to then bank
    else
      bank + (map d | d in c :: (from, d) := Balance(bank, from, d) - c[d])
           + (map d | d in c :: (to, d) := Balance(bank, to, d) + c[d])
  }

  lemma MoveBalances(bank: Bank, from: Address, to: Address, c: Coins)
    requires Has(bank, from, c)
    ensures forall a, d ::
              Balance(Move(bank, from, to, c), a, d) ==
              Balance(bank, a, d) - (if a == from && from != to then Amount(c, d) else 0)
                                  + (if a == to && from != to then Amount(c, d) else 0)
  {
  }

  // ---------- state ----------

  /** The stores of the three record prefixes, the known distributions, the open claims and the bank. */
  datatype State = State(
    pending: map<Key, Record>, completed: map<Key, Record>, failed: map<Key, Record>,
    distributions: set<(string, Kind, Address)>, claims: set<(Address, Kind)>, bank: Bank)

  /** Money taken in for a record, paid out for it, or left in escrow by its failure. */
  datatype Tag = Escrowed | Paid | Stranded

  /** One line of the journal of money movements; the stores themselves forget overwritten records. */
  datatype Entry = Entry(tag: Tag, key: Key, coins: Coins)

  /**
   What a message finds around it: the block height, which addresses parse, which recipients
   the bank refuses, which records pass validation, and the pending keys in store order.
   */
  datatype Env = Env(
    height: nat, parses: Address -> bool, refuses: Address -> bool, accepts: Record -> bool, order: seq<Key>)

  datatype Output = Output(recipient: Address, coins: Coins)

  datatype Result<+T> = Ok(value: T) | Err {
    predicate IsFailure() { Err? }
    function PropagateFailure<U>(): Result<U> requires Err? { Err }
    function Extract(): T requires Ok? { value }
  }

  // ---------- basic validation ----------

  /** What a create message must satisfy to reach its handler: every address parses, amounts are positive. */
  predicate CreateAdmitted(env: Env, distributor: Address, kind: Kind, runner: Address, outputs: seq<Output>) {
    && kind != Unspecified && outputs != [] && env.parses(distributor) && env.parses(runner)
    && forall o | o in outputs :: env.parses(o.recipient) && forall d | d in o.coins :: o.coins[d] > 0
  }

  predicate RunAdmitted(env: Env, name: string, runner: Address, kind: Kind) {
    kind != Unspecified && name != "" && env.parses(runner)
  }

  // ---------- creating a distribution ----------

  function TotalOutput(outputs: seq<Output>): Coins {
    if outputs == [] then map[]
    else AddCoins(TotalOutput(outputs[..|outputs| - 1]), outputs[|outputs| - 1].coins)
  }

  /** The record written for one output: merged into a pending record of the same key, under the new runner. */
  function DropRecord(pending: map<Key, Record>, height: nat, name: string, kind: Kind, runner: Address, o: Output): Record {
    var key := Key(name, o.recipient, kind);
    Record(Pending, key, if key in pending then AddCoins(o.coins, pending[key].coins) else o.coins, runner, height, -1)
  }

  function CreateDrops(pending: map<Key, Record>, env: Env, name: string, kind: Kind, runner: Address, outputs: seq<Output>)
    : Result<map<Key, Record>>
  {
    if outputs == [] then Ok(pending)
    else
      var p :- CreateDrops(pending, env, name, kind, runner, outputs[..|outputs| - 1]);
      var dr := DropRecord(p, env.height, name, kind, runner, outputs[|outputs| - 1]);
      if env.accepts(dr) then Ok(p[dr.key := dr]) else Err
  }

  function Escrows(name: string, kind: Kind, outputs: seq<Output>): seq<Entry> {
    if outputs == [] then []
    else
      var o := outputs[|outputs| - 1];
      Escrows(name, kind, outputs[..|outputs| - 1]) + [Entry(Escrowed, Key(name, o.recipient, kind), o.coins)]
  }

  function Decimal(n: nat): string {
    if n < 10 then [('0' as int + n) as char] else Decimal(n / 10) + [('0' as int + n % 10) as char]
  }

  function DistributionName(height: nat, distributor: Address): string { Decimal(height) + "_" + distributor }

  /** Registers the distribution, collects the total from the distributor and writes the drops. */
  function CreateDistribution(st: State, env: Env, distributor: Address, kind: Kind, runner: Address, outputs: seq<Output>)
    : Result<(State, seq<Entry>)>
  {
    var name := DistributionName(env.height, distributor);
    if (name, kind, runner) in st.distributions || outputs == [] || !env.parses(distributor) then Err
    else
      var total := TotalOutput(outputs);
      if !Has(st.bank, distributor, total) then Err
      else
        var pending :- CreateDrops(st.pending, env, name, kind, runner, outputs);
        Ok((st.(pending := pending,
                distributions := st.distributions + {(name, kind, runner)},
                bank := Move(st.bank, distributor, ESCROW, total)),
            Escrows(name, kind, outputs)))
  }

  // ---------- running a distribution ----------

  predicate Matches(r: Record, name: string, runner: Address, kind: Kind) {
    r.key.name == name && r.status == Pending && r.runner == runner && r.key.kind == kind
  }

  /** The validation the program itself applies: a recipient, and positive coins. */
  predicate Validate(r: Record) {
    r.key.recipient != "" && r.coins != map[] && forall d | d in r.coins :: r.coins[d] > 0
  }

  /** All matching records, in store order. */
  function Matching(records: seq<Record>, name: string, runner: Address, kind: Kind): seq<Record> {
    if records == [] then []
    else
      var r := records[|records| - 1];
      Matching(records[..|records| - 1], name, runner, kind) + if Matches(r, name, runner, kind) then [r] else []
  }

  function Batch(records: seq<Record>, name: string, runner: Address, kind: Kind): seq<Record> {
    var all := Matching(records, name, runner, kind);
    if |all| <= MAX_RECORDS_PER_BLOCK then all else all[..MAX_RECORDS_PER_BLOCK]
  }

  function SupportsClaim(kind: Kind): bool { kind == LiquidityMining || kind == ValidatorSubsidy }

  function Closed(r: Record, height: nat, status: Status): Record { r.(status := status, end := height) }

  /**
   Files a record under its new status, then deletes it from the pending store.  A record that does
   not validate is not written; a record that was not pending is written and reported as an error.
   */
  function ChangeStatus(st: State, env: Env, r: Record, status: Status): (State, bool)
    requires status != Pending
  {
    var dr := Closed(r, env.height, status);
    if !env.accepts(dr) then (st, false)
    else
      var filed := if status == Completed then st.(completed := st.completed[r.key := dr])
                   else st.(failed := st.failed[r.key := dr]);
      if r.key !in st.pending then (filed, false) else (filed.(pending := st.pending - {r.key}), true)
  }

  /** Whether the bank carries out the payment of a record. */
  predicate Pays(env: Env, bank: Bank, r: Record) {
    !env.refuses(r.key.recipient) && Has(bank, ESCROW, r.coins)
  }

  /**
   One record: skipped if its address does not parse, failed if the bank does not send, paid and
   completed otherwise.  If completing it fails, the coins are taken back and the record is left;
   a failure to mark it failed, or to take the coins back, panics.
   */
  function Distribute(st: State, env: Env, r: Record): Result<(State, seq<Entry>)> {
    if !env.parses(r.key.recipient) then Ok((st, []))
    else if !Pays(env, st.bank, r) then
      var (st', ok) := ChangeStatus(st, env, r, Failed);
      if ok then Ok((st', [Entry(Stranded, r.key, r.coins)])) else Err
    else
      var bank := Move(st.bank, ESCROW, r.key.recipient, r.coins);
      var (st', ok) := ChangeStatus(st.(bank := bank), env, r, Completed);
      if !ok then
        if Has(bank, r.key.recipient, r.coins) then
          Ok((st'.(bank := Move(bank, r.key.recipient, ESCROW, r.coins)), []))
        else Err
      else
        Ok((if SupportsClaim(r.key.kind) then st'.(claims := st'.claims - {(r.key.recipient, r.key.kind)}) else st',
            [Entry(Paid, r.key, r.coins)]))
  }

  function DistributeAll(st: State, env: Env, batch: seq<Record>): Result<(State, seq<Entry>)> {
    if batch == [] then Ok((st, []))
    else
      var (mid, entries) :- DistributeAll(st, env, batch[..|batch| - 1]);
      var (after, more) :- Distribute(mid, env, batch[|batch| - 1]);
      Ok((after, entries + more))
  }

  /** The pending records in store order. */
  function Iteration(st: State, env: Env): seq<Record>
    requires forall k | k in env.order :: k in st.pending
  {
    seq(|env.order|, i requires 0 <= i < |env.order| => assert env.order[i] in env.order; st.pending[env.order[i]])
  }

  function RunDistribution(st: State, env: Env, name: string, runner: Address, kind: Kind): Result<(State, seq<Entry>)>
    requires forall k | k in env.order :: k in st.pending
  {
    DistributeAll(st, env, Batch(Iteration(st, env), name, runner, kind))
  }
}
