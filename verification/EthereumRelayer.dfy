/**
 The cursor of the Ethereum relayer: which block ranges it queries over every sequence of new heads,
 failed queries, crashes and restarts.
 */
module EthereumRelayer {
  import Logs

  const TRAILING_BLOCKS: nat := 50

  /** Whether the process is up, the next block it holds in memory, and the one in its database; zero is none. */
  datatype State = State(up: bool, last: nat, db: nat)

  /** How a head ends: the query fails, the cursor is saved, or the process dies before or after the query. */
  datatype Outcome = QueryFails | Saves | DiesBeforeQuery | DiesBeforeSave

  /** A range is queried with success, both ends included; a cursor is saved; the process dies. */
  datatype Entry = Queried(from: nat, to: nat) | Saved(next: nat) | Crashed

  datatype Event = Boot | Head(number: nat, outcome: Outcome) | Crash

  /** A process that dies keeps only its database. */
  function Down(st: State): State { State(false, 0, st.db) }

  /** A head fifty blocks below zero is ignored; a cursor of zero is first set to the end of the range. */
  function OnHead(st: State, number: nat, outcome: Outcome): (State, seq<Entry>) {
    if number < TRAILING_BLOCKS then (st, [])
    else
      var ending := number - TRAILING_BLOCKS;
      var last := if st.last == 0 then ending else st.last;
      match outcome
      case QueryFails => (st.(last := last), [])
      case Saves => (st.(last := ending + 1, db := ending + 1), [Queried(last, ending), Saved(ending + 1)])
      case DiesBeforeQuery => (Down(st), [Crashed])
      case DiesBeforeSave => (Down(st), [Queried(last, ending), Crashed])
  }

  function Step(st: State, ev: Event): (State, seq<Entry>) {
    match ev
    case Boot => (if st.up then st else st.(up := true, last := st.db), [])
    case Crash => if st.up then (Down(st), [Crashed]) else (st, [])
    case Head(number, outcome) => if st.up then OnHead(st, number, outcome) else (st, [])
  }

  function Run(st: State, events: seq<Event>): (State, seq<Entry>) {
    if events == [] then (st, [])
    else
      var (mid, log) := Run(st, events[..|events| - 1]);
      var (after, more) := Step(mid, events[|events| - 1]);
      (after, log + more)
  }

  /** A relayer that has not started, with the cursor its database was set up with, if any. */
  function Initial(base: nat): State { State(false, 0, base) }

  // ---------- the order of the log ----------

  /** The cursor after a log, from the one the database began with. */
  function LastSaved(base: nat, log: seq<Entry>): nat {
    if log == [] then base
    else if log[|log| - 1].Saved? then log[|log| - 1].next
    else LastSaved(base, log[..|log| - 1])
  }

  /** Once there is a cursor, every query starts at it; a save follows the query that ends just below it. */
  predicate Follows(base: nat, log: seq<Entry>, e: Entry) {
    match e
    case Queried(from, _) =>
      && (log == [] || !log[|log| - 1].Queried?)
      && (LastSaved(base, log) > 0 ==> from == LastSaved(base, log))
    case Saved(next) => log != [] && log[|log| - 1].Queried? && next == log[|log| - 1].to + 1
    case Crashed => true
  }

  function Order(base: nat): Logs.Rule<Entry> { (log, e) => Follows(base, log, e) }

  predicate Orderly(base: nat, log: seq<Entry>) { Logs.Orderly(Order(base), log) }

  predicate Inv(base: nat, st: State, log: seq<Entry>) {
    && Orderly(base, log) && LastSaved(base, log) == st.db
    && (st.up && st.db > 0 ==> st.last == st.db)
    && (log == [] || !log[|log| - 1].Queried?)
  }

  lemma Push(base: nat, log: seq<Entry>, e: Entry)
    requires Orderly(base, log) && Follows(base, log, e)
    ensures Orderly(base, log + [e])
    ensures LastSaved(base, log + [e]) == if e.Saved? then e.next else LastSaved(base, log)
  {
    assert (log + [e])[..|log|] == log;
    Logs.Extend(Order(base), log, e);
  }

  lemma PushTwo(base: nat, st: State, log: seq<Entry>, from: nat, to: nat, e: Entry)
    requires Inv(base, st, log) && (st.db > 0 ==> from == st.db)
    requires e == Saved(to + 1) || e == Crashed
    ensures Orderly(base, log + [Queried(from, to), e])
    ensures LastSaved(base, log + [Queried(from, to), e]) == if e.Saved? then e.next else LastSaved(base, log)
  {
    hide Orderly, LastSaved;
    Push(base, log, Queried(from, to));
    Push(base, log + [Queried(from, to)], e);
    assert log + [Queried(from, to)] + [e] == log + [Queried(from, to), e];
  }

  lemma HeadKeeps(base: nat, st: State, number: nat, outcome: Outcome, log: seq<Entry>)
    requires Inv(base, st, log) && st.up && number >= TRAILING_BLOCKS
    ensures var (after, more) := OnHead(st, number, outcome); Inv(base, after, log + more)
  {
    hide Orderly, LastSaved;
    var ending := number - TRAILING_BLOCKS;
    var last := if st.last == 0 then ending else st.last;
    match outcome
    case QueryFails => assert log + [] == log;
    case Saves => PushTwo(base, st, log, last, ending, Saved(ending + 1));
    case DiesBeforeQuery => Push(base, log, Crashed);
    case DiesBeforeSave => PushTwo(base, st, log, last, ending, Crashed);
  }

  lemma StepKeeps(base: nat, st: State, ev: Event, log: seq<Entry>)
    requires Inv(base, st, log)
    ensures var (after, more) := Step(st, ev); Inv(base, after, log + more)
  {
    hide Orderly, LastSaved;
    assert log + [] == log;
    if ev.Crash? {
      Push(base, log, Crashed);
    } else if ev.Head? && st.up && ev.number >= TRAILING_BLOCKS {
      HeadKeeps(base, st, ev.number, ev.outcome, log);
    }
  }

  /** Every run, whatever fails in it, leaves an orderly log. */
  lemma {:induction false} RunOrderly(base: nat, events: seq<Event>)
    ensures Inv(base, Run(Initial(base), events).0, Run(Initial(base), events).1)
  {
    hide Step;
    if events != [] {
      RunOrderly(base, events[..|events| - 1]);
      var (mid, log) := Run(Initial(base), events[..|events| - 1]);
      StepKeeps(base, mid, events[|events| - 1], log);
    }
  }

  // ---------- what was covered ----------

  predicate Covered(log: seq<Entry>, b: nat) {
    exists i :: 0 <= i < |log| && log[i].Queried? && log[i].from <= b <= log[i].to
  }

  /** Where coverage begins: at the initial cursor, or where the query before the first save began. */
  function Origin(base: nat, log: seq<Entry>): nat {
    if base > 0 || |log| < 2 then base
    else
      var init, e := log[..|log| - 1], log[|log| - 1];
      if e.Saved? && LastSaved(base, init) == 0 && init[|init| - 1].Queried? then init[|init| - 1].from
      else Origin(base, init)
  }

  lemma {:induction false} CursorStays(base: nat, log: seq<Entry>)
    requires Orderly(base, log) && base > 0
    ensures LastSaved(base, log) > 0
  {
    if log != [] { CursorStays(base, log[..|log| - 1]); }
  }

  lemma CoveredMore(log: seq<Entry>, more: seq<Entry>, b: nat)
    requires Covered(log, b)
    ensures Covered(log + more, b)
  {
    var i :| 0 <= i < |log| && log[i].Queried? && log[i].from <= b <= log[i].to;
    assert (log + more)[i] == log[i];
  }

  lemma {:induction false} OrderlyCovers(base: nat, log: seq<Entry>, b: nat)
    requires Orderly(base, log) && Origin(base, log) <= b < LastSaved(base, log)
    ensures Covered(log, b)
  {
    if log != [] {
      var init, e := log[..|log| - 1], log[|log| - 1];
      assert log == init + [e];
      if e.Saved? {
        var q := init[|init| - 1];
        assert log[|init| - 1] == q && LastSaved(base, init) == LastSaved(base, init[..|init| - 1]);
        if base > 0 { CursorStays(base, init); }
        if b < q.from {
          OrderlyCovers(base, init, b);
          CoveredMore(init, [e], b);
        }
      } else {
        OrderlyCovers(base, init, b);
        CoveredMore(init, [e], b);
      }
    }
  }

  /** Over every run, every block from where coverage began up to the saved cursor was in a successful query. */
  lemma EveryBlockCovered(base: nat, events: seq<Event>, b: nat)
    requires
      var (st, log) := Run(Initial(base), events);
      Origin(base, log) <= b < st.db
    ensures Covered(Run(Initial(base), events).1, b)
  {
    hide Run, Orderly, Covered;
    RunOrderly(base, events);
    OrderlyCovers(base, Run(Initial(base), events).1, b);
  }

  /** Over every run, no query reaches within fifty blocks of the highest head seen. */
  lemma {:induction false} StaysBehind(base: nat, events: seq<Event>, highest: nat, i: nat)
    requires forall k | 0 <= k < |events| && events[k].Head? :: events[k].number <= highest
    requires i < |Run(Initial(base), events).1| && Run(Initial(base), events).1[i].Queried?
    ensures Run(Initial(base), events).1[i].to + TRAILING_BLOCKS <= highest
  {
    var init, ev := events[..|events| - 1], events[|events| - 1];
    var (mid, log) := Run(Initial(base), init);
    if i < |log| {
      StaysBehind(base, init, highest, i);
    } else {
      assert Run(Initial(base), events).1[i] == Step(mid, ev).1[i - |log|];
    }
  }

  /**
   Over every run, once there is a cursor: a query starts at the cursor, and is followed by the save
   of its end or by a crash, after which the next query starts at the same block.
   */
  lemma CrashRepeatsRange(base: nat, events: seq<Event>, i: nat)
    requires
      var log := Run(Initial(base), events).1;
      i < |log| && log[i].Queried? && LastSaved(base, log[..i]) > 0
    ensures
      var log := Run(Initial(base), events).1;
      && log[i].from == LastSaved(base, log[..i]) && i + 1 < |log|
      && (log[i + 1] == Saved(log[i].to + 1) ||
          (log[i + 1] == Crashed && LastSaved(base, log[..i + 2]) == LastSaved(base, log[..i])))
  {
    hide Run;
    RunOrderly(base, events);
    var log := Run(Initial(base), events).1;
    Logs.Prefix(Order(base), log, i);
    assert i + 1 < |log|;
    Logs.Prefix(Order(base), log, i + 1);
    assert log[..i + 1][i] == log[i] && log[..i + 1][..i] == log[..i];
    assert log[..i + 2][..i + 1] == log[..i + 1];
  }

  // ---------- the place before the first save ----------

  /** The end of the first range a running process could query; -1 if no head was fifty blocks up. */
  function FirstRange(st: State, events: seq<Event>): int {
    if events == [] then -1
    else
      var init, ev := events[..|events| - 1], events[|events| - 1];
      if FirstRange(st, init) >= 0 then FirstRange(st, init)
      else if ev.Head? && ev.number >= TRAILING_BLOCKS && Run(st, init).0.up then ev.number - TRAILING_BLOCKS
      else -1
  }

  /** Every block from the initial cursor, or from the first range if there was none, up to the saved cursor was queried. */
  predicate NothingSkipped(base: nat, events: seq<Event>) {
    var (st, log) := Run(Initial(base), events);
    forall b: nat | (if base > 0 then base else FirstRange(Initial(base), events)) <= b < st.db :: Covered(log, b)
  }

  /**
   Before anything is saved a crash loses the place: a process hears of a head, dies, and the next one
   starts at a later head, so that the blocks in between are never queried.
   */
  ghost function LostPlace(first: nat, later: nat): seq<Event> {
    [Boot, Head(first, DiesBeforeQuery), Boot, Head(later, Saves)]
  }

  lemma UnsavedPlaceIsLost(first: nat, later: nat)
    requires TRAILING_BLOCKS <= first < later
    ensures Run(Initial(0), LostPlace(first, later)) ==
            (State(true, later - 49, later - 49), [Crashed, Queried(later - 50, later - 50), Saved(later - 49)])
    ensures FirstRange(Initial(0), LostPlace(first, later)) == first - 50
    ensures forall b: nat | first - 50 <= b < later - 50 :: !Covered(Run(Initial(0), LostPlace(first, later)).1, b)
  {
    hide Run, FirstRange;
    var start, head, e1 := Initial(0), Head(first, DiesBeforeQuery), [] + [Boot];
    var e2 := e1 + [head];
    var e3 := e2 + [Boot];
    RunNothing(start);
    RunMore(start, [], Boot, start, [], State(true, 0, 0), []);
    RunMore(start, e1, head, State(true, 0, 0), [], start, [Crashed]);
    RunMore(start, e2, Boot, start, [Crashed], State(true, 0, 0), [Crashed]);
    RunMore(start, e3, Head(later, Saves), State(true, 0, 0), [Crashed], State(true, later - 49, later - 49),
            [Crashed, Queried(later - 50, later - 50), Saved(later - 49)]);
    assert e3 + [Head(later, Saves)] == LostPlace(first, later);
    BootHearsNothing(start);
    assert e2[..|e2| - 1] == e1 == [Boot];
    FirstRangeStays(start, e2, [Boot, Head(later, Saves)], head);
    assert e2 + [Boot, Head(later, Saves)] == LostPlace(first, later);
  }

  lemma RunNothing(st: State)
    ensures Run(st, []) == (st, [])
  {
  }

  lemma RunMore(st: State, events: seq<Event>, ev: Event, mid: State, log: seq<Entry>, after: State, total: seq<Entry>)
    requires Run(st, events) == (mid, log) && Step(mid, ev).0 == after && total == log + Step(mid, ev).1
    ensures Run(st, events + [ev]) == (after, total)
  {
    assert (events + [ev])[..|events|] == events;
  }

  lemma BootHearsNothing(st: State)
    ensures FirstRange(st, [Boot]) == -1
  {
    assert [Boot][..0] == [];
  }

  lemma {:induction false} FirstRangeStays(st: State, events: seq<Event>, more: seq<Event>, head: Event)
    requires events != [] && events[|events| - 1] == head && head.Head? && head.number >= TRAILING_BLOCKS
    requires Run(st, events[..|events| - 1]).0.up && FirstRange(st, events[..|events| - 1]) == -1
    ensures FirstRange(st, events + more) == head.number - TRAILING_BLOCKS
    decreases |more|
  {
    if more == [] {
      assert events + more == events;
    } else {
      FirstRangeStays(st, events, more[..|more| - 1], head);
      assert (events + more)[..|events + more| - 1] == events + more[..|more| - 1];
    }
  }

  /** No block is skipped in any run, whatever fails in it, exactly when the relayer starts with a cursor. */
  lemma NothingSkippedIff(base: nat)
    ensures (forall events :: NothingSkipped(base, events)) <==> base > 0
  {
    hide Run, FirstRange, Covered;
    if base > 0 {
      forall events ensures NothingSkipped(base, events) {
        forall b: nat | base <= b < Run(Initial(base), events).0.db ensures Covered(Run(Initial(base), events).1, b) {
          EveryBlockCovered(base, events, b);
        }
      }
    } else {
      UnsavedPlaceIsLost(50, 51);
      assert !Covered(Run(Initial(0), LostPlace(50, 51)).1, 0);
      assert !NothingSkipped(0, LostPlace(50, 51));
    }
  }

  /** Heads whose query fails or whose cursor is saved, and no crash. */
  ghost predicate Surviving(events: seq<Event>) {
    forall k | 0 <= k < |events| :: events[k].Head? && events[k].outcome in {QueryFails, Saves}
  }

  /** A process without a cursor remembers its first range until it is saved. */
  lemma {:induction false} SurvivorPlace(events: seq<Event>)
    requires Surviving(events)
    ensures
      var (st, log) := Run(State(true, 0, 0), events);
      var first := FirstRange(State(true, 0, 0), events);
      && st.up && Inv(0, st, log)
      && (first < 0 ==> st == State(true, 0, 0) && log == [])
      && (first > 0 && st.db == 0 ==> st.last == first && log == [])
      && (first > 0 && st.db > 0 ==> Origin(0, log) == first)
  {
    hide Orderly;
    var start := State(true, 0, 0);
    if events == [] {
      NothingLogged();
    } else {
      var init, ev := events[..|events| - 1], events[|events| - 1];
      SurvivorPlace(init);
      var (st, log) := Run(start, init);
      StepKeeps(0, st, ev, log);
      assert log + [] == log;
      if ev.number >= TRAILING_BLOCKS && ev.outcome == Saves {
        var ending := ev.number - TRAILING_BLOCKS;
        SaveOrigin(log, Queried(if st.last == 0 then ending else st.last, ending), Saved(ending + 1));
      }
    }
  }

  lemma NothingLogged()
    ensures Orderly(0, []) && LastSaved(0, []) == 0
  {
  }

  lemma SaveOrigin(log: seq<Entry>, q: Entry, e: Entry)
    requires q.Queried? && e.Saved?
    ensures Origin(0, log + [q, e]) == if LastSaved(0, log) == 0 then q.from else Origin(0, log)
  {
    assert (log + [q, e])[..|log| + 1] == log + [q] && (log + [q])[..|log|] == log;
    if log == [] { assert LastSaved(0, log) == 0; }
  }

  /**
   Without a cursor, failed queries lose nothing as long as the process survives: every block from the first head
   less fifty up to the saved cursor was queried, unless that first block is zero, which stands for no place.
   */
  lemma SurvivorSkipsNothing(events: seq<Event>, b: nat)
    requires Surviving(events) && 0 < FirstRange(State(true, 0, 0), events) <= b < Run(State(true, 0, 0), events).0.db
    ensures Covered(Run(State(true, 0, 0), events).1, b)
  {
    hide Run, FirstRange, Orderly, Covered, Origin;
    SurvivorPlace(events);
    OrderlyCovers(0, Run(State(true, 0, 0), events).1, b);
  }

  // ---------- undisturbed runs ----------

  function Queries(log: seq<Entry>): seq<Entry> {
    if log == [] then []
    else Queries(log[..|log| - 1]) + if log[|log| - 1].Queried? then [log[|log| - 1]] else []
  }

  /** Non-empty ranges, each beginning where the one before ended, from one block up to another. */
  predicate Tiles(q: seq<Entry>, from: nat, next: nat) {
    if q == [] then from == next
    else
      var e := q[|q| - 1];
      e.Queried? && e.from <= e.to && e.to + 1 == next && Tiles(q[..|q| - 1], from, e.from)
  }

  /** Heads that strictly increase, from a first one whose range is not below the cursor, and no crash. */
  predicate Rising(cursor: nat, events: seq<Event>) {
    && (forall k | 0 <= k < |events| :: events[k].Head? && events[k].outcome in {QueryFails, Saves})
    && (forall k | 1 <= k < |events| :: events[k].number > events[k - 1].number)
    && (events != [] ==> events[0].number >= cursor + TRAILING_BLOCKS)
  }

  lemma RisingInit(cursor: nat, events: seq<Event>)
    requires Rising(cursor, events) && events != []
    ensures
      var init := events[..|events| - 1];
      && events[|events| - 1].Head? && events[|events| - 1].outcome in {QueryFails, Saves}
      && (init == [] ==> events[0].number >= cursor + TRAILING_BLOCKS)
      && Rising(cursor, init) && (init != [] ==> events[|events| - 1].number > init[|init| - 1].number)
  {
    var init := events[..|events| - 1];
    assert forall k | 0 <= k < |init| :: init[k] == events[k];
  }

  lemma QueriesAppend(log: seq<Entry>, q: Entry, s: Entry)
    requires q.Queried? && !s.Queried?
    ensures Queries(log + [q, s]) == Queries(log) + [q]
  {
    assert (log + [q, s])[..|log| + 1] == log + [q] && (log + [q])[..|log|] == log;
  }

  /**
   With strictly increasing heads and no crash, the successful queries cut the blocks from the old
   cursor to the new one into adjacent disjoint ranges.
   */
  lemma {:induction false} RangesTile(st: State, events: seq<Event>)
    requires st.up && st.last == st.db > 0 && Rising(st.db, events)
    ensures
      var (after, log) := Run(st, events);
      && after.up && after.last == after.db > 0 && Tiles(Queries(log), st.db, after.db)
      && (events != [] ==> after.db + TRAILING_BLOCKS <= events[|events| - 1].number + 1)
      && (events == [] ==> after.db == st.db)
  {
    hide Tiles, Queries, Rising;
    if events == [] {
      NoQueries(st.db);
    } else {
      var init, ev := events[..|events| - 1], events[|events| - 1];
      RisingInit(st.db, events);
      RangesTile(st, init);
      var (mid, log) := Run(st, init);
      assert ev.number >= mid.db + TRAILING_BLOCKS;
      var ending := ev.number - TRAILING_BLOCKS;
      if ev.outcome == Saves {
        QueriesAppend(log, Queried(mid.last, ending), Saved(ending + 1));
        TileMore(Queries(log), st.db, mid.db, ending);
      } else {
        assert log + [] == log;
      }
    }
  }

  lemma NoQueries(b: nat)
    ensures Tiles(Queries([]), b, b)
  {
  }

  lemma TileMore(q: seq<Entry>, from: nat, mid: nat, to: nat)
    requires Tiles(q, from, mid) && mid <= to
    ensures Tiles(q + [Queried(mid, to)], from, to + 1)
  {
    assert (q + [Queried(mid, to)])[..|q|] == q;
  }

  // ---------- the loop itself ----------

  /** An integer object, changed in place by its arithmetic. */
  class BigInt {
    var v: int

    constructor (x: int)
      ensures v == x
    {
      v := x;
    }

    method Add(x: BigInt, y: BigInt) returns (z: BigInt)
      modifies this
      ensures z == this && v == old(x.v) + old(y.v)
    {
      v := x.v + y.v;
      z := this;
    }

    method Sub(x: BigInt, y: BigInt) returns (z: BigInt)
      modifies this
      ensures z == this && v == old(x.v) - old(y.v)
    {
      v := x.v - y.v;
      z := this;
    }
  }

  class EthereumSub {
    var up: bool
    var lastProcessedBlock: BigInt
    var db: nat
    ghost var log: seq<Entry>

    ghost predicate Valid()
      reads this, lastProcessedBlock
    {
      lastProcessedBlock.v >= 0
    }

    ghost function View(): State
      requires Valid()
      reads this, lastProcessedBlock
    {
      State(up, lastProcessedBlock.v, db)
    }

    constructor (base: nat)
      ensures Valid() && View() == Initial(base) && log == [] && fresh(lastProcessedBlock)
    {
      up, db, log := false, base, [];
      lastProcessedBlock := new BigInt(0);
    }

    method Start()
      requires Valid()
      modifies this
      ensures Valid() && View() == Step(old(View()), Boot).0 && log == old(log)
    {
      if !up {
        up := true;
        lastProcessedBlock := new BigInt(db);
      }
    }

    /**
     The head's own number becomes the end of the range, and perhaps the cursor too: the cursor may
     then be the very object that the end is counted up on.
     */
    method OnNewHead(number: BigInt, outcome: Outcome)
      requires Valid() && up && number.v >= 0 && number != lastProcessedBlock
      modifies this, number
      ensures Valid() && View() == Step(old(View()), Head(old(number.v), outcome)).0
      ensures log == old(log) + Step(old(View()), Head(old(number.v), outcome)).1
    {
      var trailing := new BigInt(TRAILING_BLOCKS);
      var endingBlock := number.Sub(number, trailing);
      if endingBlock.v < 0 { return; }
      if outcome == DiesBeforeQuery {
        lastProcessedBlock := new BigInt(0);
        up, log := false, log + [Crashed];
        return;
      }
      if lastProcessedBlock.v == 0 { lastProcessedBlock := endingBlock; }
      if outcome == QueryFails { return; }
      ghost var query := Queried(lastProcessedBlock.v, endingBlock.v);
      if outcome == DiesBeforeSave {
        lastProcessedBlock := new BigInt(0);
        up, log := false, log + [query, Crashed];
        return;
      }
      var one := new BigInt(1);
      endingBlock := endingBlock.Add(endingBlock, one);
      db := endingBlock.v;
      lastProcessedBlock := endingBlock;
      log := log + [query, Saved(endingBlock.v)];
    }
  }
}
