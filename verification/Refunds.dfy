/**
 Bank transfers and the refund loop of a decommissioned pool.
 */
module Refunds {
  import opened Sums
  import opened Pools
  import opened Withdrawal
  import opened Ledger

  // ---------- bank ----------

  /** A transfer between two accounts moves the amount and touches nothing else. */
  lemma SendMoves(bank: Bank, from: Address, to: Address, s: Symbol, amount: nat)
    requires from != to
    ensures var r := Send(bank, from, to, s, amount);
            && (r.Ok? <==> amount <= Balance(bank, from, s))
            && (r.Ok? ==>
                  && Balance(r.value, from, s) == Balance(bank, from, s) - amount
                  && Balance(r.value, to, s) == Balance(bank, to, s) + amount
                  && forall a, d :: (d != s || (a != from && a != to)) ==> Balance(r.value, a, d) == Balance(bank, a, d))
  {
  }

  lemma SendBothMoves(bank: Bank, from: Address, to: Address, s: Symbol, external: nat, native: nat)
    requires from != to && s != NATIVE
    ensures var r := SendBoth(bank, from, to, s, external, native);
            && (r.Ok? <==> external <= Balance(bank, from, s) && native <= Balance(bank, from, NATIVE))
            && (r.Ok? ==>
                  && Balance(r.value, from, s) == Balance(bank, from, s) - external
                  && Balance(r.value, to, s) == Balance(bank, to, s) + external
                  && Balance(r.value, from, NATIVE) == Balance(bank, from, NATIVE) - native
                  && Balance(r.value, to, NATIVE) == Balance(bank, to, NATIVE) + native
                  && forall a, d :: ((d != s && d != NATIVE) || (a != from && a != to)) ==>
                       Balance(r.value, a, d) == Balance(bank, a, d))
  {
    hide Send, Balance;
    SendMoves(bank, from, to, s, external);
    var b := Send(bank, from, to, s, external);
    if b.Ok? { SendMoves(b.value, from, to, NATIVE, native); }
  }

  // ---------- refunds ----------

  /** The refunds of all providers, by asset, and their units. */
  ghost function NativeRefunds(pool: Pool, lps: Providers): map<Address, int> {
    map a | a in lps :: var p := RefundOf(pool, lps[a]); if p.Payout? then p.native else 0
  }

  ghost function ExternalRefunds(pool: Pool, lps: Providers): map<Address, int> {
    map a | a in lps :: var p := RefundOf(pool, lps[a]); if p.Payout? then p.external else 0
  }

  ghost function UnitsOf(lps: Providers): map<Address, int> {
    map a | a in lps :: lps[a]
  }

  lemma RefundKeys(pool: Pool, lps: Providers)
    ensures NativeRefunds(pool, lps).Keys == lps.Keys
    ensures ExternalRefunds(pool, lps).Keys == lps.Keys
    ensures UnitsOf(lps).Keys == lps.Keys
  {
  }

  ghost predicate Distinct(order: seq<Address>) {
    forall i, j :: 0 <= i < j < |order| ==> order[i] != order[j]
  }

  /** The totals over a listing fit the pool and the module's coins, and every refund can be computed. */
  ghost predicate Affordable(bank: Bank, pool: Pool, s: Symbol, lps: Providers, order: seq<Address>)
    requires forall a | a in order :: a in lps
  {
    && (forall a | a in order :: RefundOf(pool, lps[a]).Payout?)
    && SumListed(order, UnitsOf(lps)) <= pool.units
    && SumListed(order, NativeRefunds(pool, lps)) <= pool.native
    && SumListed(order, ExternalRefunds(pool, lps)) <= pool.external
    && SumListed(order, NativeRefunds(pool, lps)) <= Balance(bank, MODULE, NATIVE)
    && SumListed(order, ExternalRefunds(pool, lps)) <= Balance(bank, MODULE, s)
  }

  /** State of the loop after the providers in `order` have been refunded. */
  ghost predicate Refunded(r: Refunding, bank: Bank, pool: Pool, s: Symbol, lps: Providers, order: seq<Address>)
    requires forall a | a in order :: a in lps
  {
    && r.units == pool.units - SumListed(order, UnitsOf(lps))
    && r.native == pool.native - SumListed(order, NativeRefunds(pool, lps))
    && r.external == pool.external - SumListed(order, ExternalRefunds(pool, lps))
    && r.left == lps - (set a | a in order)
    && BankAfter(r.bank, bank, pool, s, lps, order)
  }

  ghost predicate BankAfter(after: Bank, bank: Bank, pool: Pool, s: Symbol, lps: Providers, order: seq<Address>)
    requires forall a | a in order :: a in lps
  {
    && Balance(after, MODULE, s) == Balance(bank, MODULE, s) - SumListed(order, ExternalRefunds(pool, lps))
    && Balance(after, MODULE, NATIVE) == Balance(bank, MODULE, NATIVE) - SumListed(order, NativeRefunds(pool, lps))
    && forall a, d :: a != MODULE || (d != s && d != NATIVE) ==>
         Balance(after, a, d) == Balance(bank, a, d) +
           (if a !in order then 0
            else if d == s then ExternalRefunds(pool, lps)[a]
            else if d == NATIVE then NativeRefunds(pool, lps)[a] else 0)
  }

  /** The loop succeeds exactly when the totals are affordable, and then pays everyone once. */
  lemma {:induction false} RefundLoop(st: State, pool: Pool, s: Symbol, lps: Providers, order: seq<Address>)
    requires s != NATIVE && lps == ProvidersOf(st, s) && MODULE !in lps
    requires Distinct(order) && forall a | a in order :: a in lps
    ensures var r := RefundAll(StartRefund(st, s, pool), pool, s, order);
            && (r.Ok? <==> Affordable(st.bank, pool, s, lps, order))
            && (r.Ok? ==> Refunded(r.value, st.bank, pool, s, lps, order))
    decreases |order|
  {
    hide RefundOf, Balance, SendBoth, ProvidersOf, RefundOne, Affordable, Refunded, NativeRefunds, ExternalRefunds,
         UnitsOf, SumListed, Send;
    RefundKeys(pool, lps);
    if order == [] {
      RefundNothing(st, pool, s, lps);
    } else {
      var rest, last := order[..|order| - 1], order[|order| - 1];
      assert last in order;
      assert forall a | a in rest :: a in order && a != last;
      RefundLoop(st, pool, s, lps, rest);
      AffordablePrefix(st.bank, pool, s, lps, rest, last, order);
      var r := RefundAll(StartRefund(st, s, pool), pool, s, rest);
      if r.Ok? {
        RefundLast(r.value, st.bank, pool, s, lps, rest, last, order);
      }
    }
  }

  lemma RefundNothing(st: State, pool: Pool, s: Symbol, lps: Providers)
    requires lps == ProvidersOf(st, s)
    ensures Affordable(st.bank, pool, s, lps, [])
    ensures Refunded(StartRefund(st, s, pool), st.bank, pool, s, lps, [])
  {
    hide RefundOf, Balance, ProvidersOf;
    assert lps - (set a | a in []) == lps;
  }

  /** Affordable totals are affordable for every prefix: refunds are not negative. */
  lemma RefundGrows(bank: Bank, pool: Pool, s: Symbol, lps: Providers,
                    rest: seq<Address>, last: Address, order: seq<Address>)
    requires order == rest + [last] && forall a | a in order :: a in lps
    requires forall a | a in rest :: a in lps
    ensures Affordable(bank, pool, s, lps, order) ==> Affordable(bank, pool, s, lps, rest)
    ensures SumListed(order, UnitsOf(lps)) == SumListed(rest, UnitsOf(lps)) + lps[last]
    ensures SumListed(order, NativeRefunds(pool, lps)) ==
            SumListed(rest, NativeRefunds(pool, lps)) + NativeRefunds(pool, lps)[last]
    ensures SumListed(order, ExternalRefunds(pool, lps)) ==
            SumListed(rest, ExternalRefunds(pool, lps)) + ExternalRefunds(pool, lps)[last]
  {
    hide RefundOf;
    assert order[..|order| - 1] == rest && order[|order| - 1] == last;
    assert forall a | a in rest :: a in order;
  }

  lemma AffordablePrefix(bank: Bank, pool: Pool, s: Symbol, lps: Providers,
                         rest: seq<Address>, last: Address, order: seq<Address>)
    requires order == rest + [last] && (forall a | a in order :: a in lps) && (forall a | a in rest :: a in lps)
    ensures Affordable(bank, pool, s, lps, order) ==> Affordable(bank, pool, s, lps, rest)
  {
    hide Affordable;
    RefundGrows(bank, pool, s, lps, rest, last, order);
  }

  lemma RefundLast(r: Refunding, bank: Bank, pool: Pool, s: Symbol, lps: Providers,
                   rest: seq<Address>, last: Address, order: seq<Address>)
    requires s != NATIVE && MODULE !in lps && last in lps && last !in rest
    requires order == rest + [last] && (forall a | a in order :: a in lps) && (forall a | a in rest :: a in lps)
    requires Affordable(bank, pool, s, lps, rest) && Refunded(r, bank, pool, s, lps, rest)
    ensures var r' := RefundOne(r, pool, s, last);
            && (r'.Ok? <==> Affordable(bank, pool, s, lps, order))
            && (r'.Ok? ==> Refunded(r'.value, bank, pool, s, lps, order))
  {
    hide RefundOf, Balance, SendBoth, BankAfter;
    RefundGrows(bank, pool, s, lps, rest, last, order);
    assert forall a | a in order :: a == last || a in rest;
    assert (set a | a in order) == (set a | a in rest) + {last};
    var pay := RefundOf(pool, lps[last]);
    if pay.Payout? {
      PayLast(r.bank, bank, pool, s, lps, rest, last, order, pay);
    }
  }

  lemma PayLast(mid: Bank, bank: Bank, pool: Pool, s: Symbol, lps: Providers,
                rest: seq<Address>, last: Address, order: seq<Address>, pay: Payout)
    requires s != NATIVE && MODULE !in lps && last in lps && last !in rest
    requires order == rest + [last] && (forall a | a in order :: a in lps) && (forall a | a in rest :: a in lps)
    requires pay == RefundOf(pool, lps[last]) && pay.Payout? && BankAfter(mid, bank, pool, s, lps, rest)
    ensures var b := SendBoth(mid, MODULE, last, s, pay.external, pay.native);
            && (b.Ok? <==> && SumListed(order, ExternalRefunds(pool, lps)) <= Balance(bank, MODULE, s)
                           && SumListed(order, NativeRefunds(pool, lps)) <= Balance(bank, MODULE, NATIVE))
            && (b.Ok? ==> BankAfter(b.value, bank, pool, s, lps, order))
  {
    hide RefundOf, Balance, SendBoth;
    RefundGrows(bank, pool, s, lps, rest, last, order);
    SendBothMoves(mid, MODULE, last, s, pay.external, pay.native);
  }
}
