/**
 The cast of the concrete runs: one registered token, two users, and a pool created by the first.
 */
module Scenario {
  import opened FixedPoint
  import opened Pools
  import opened Ledger
  import opened Runs

  const ETH: Symbol := "ceth"
  const ALICE: Address := "alice"
  const BOB: Address := "bob"

  const REGISTRY: Env := Env(map[ETH := Entry(18, true)], {}, [], false)

  ghost function Start(N: nat, E: nat, r: nat, e: nat): State {
    State(map[], map[], map[(ALICE, NATIVE) := N, (ALICE, ETH) := E, (BOB, NATIVE) := r, (BOB, ETH) := e])
  }

  ghost function Created(N: nat, E: nat, r: nat, e: nat): State {
    State(map[ETH := Pool(N, E, N)], map[(ETH, ALICE) := N],
          map[(ALICE, NATIVE) := 0, (ALICE, ETH) := 0, (BOB, NATIVE) := r, (BOB, ETH) := e,
              (MODULE, NATIVE) := N, (MODULE, ETH) := E])
  }

  lemma CreationRuns(N: nat, E: nat, r: nat, e: nat)
    requires N >= POOL_THRESHOLD && E > 0
    ensures Step(Start(N, E, r, e), REGISTRY, CreatePool(ALICE, ETH, N, E)) == Ok(Created(N, E, r, e))
  {
    hide Chop;
    ChopExact(1);
    var after := Step(Start(N, E, r, e), REGISTRY, CreatePool(ALICE, ETH, N, E));
    assert after.value.bank == Created(N, E, r, e).bank;
  }

  lemma RunMore(st: State, events: seq<Event>, e: Event)
    requires ValidRun(st, events) && Admissible(Final(st, events), e)
    ensures ValidRun(st, events + [e]) && Final(st, events + [e]) == Apply(Final(st, events), e)
  {
    assert (events + [e])[..|events|] == events;
  }
}
