/**
 The cursor of the Cosmos relayer: which block heights it handles, and in which order, over every
 sequence of new blocks, fetch errors, crashes and restarts.
 */
module CosmosRelayer {
  import Logs

  /** Whether the process is up, the height it holds in memory, and the height in its database; zero is none. */
  datatype State = State(up: bool, last: nat, db: nat)

  /** How one attempt at a block ends: an error to retry, the cursor saved, or a crash while or after handling. */
  datatype Attempt = FetchFails | Saves | DiesBeforeSave

  /** A block is handled, perhaps only in part if a crash comes next; a cursor is saved; the process dies. */
  datatype Entry = Handled(height: nat) | Saved(height: nat) | Crashed

  /** The process starts, learns of a block and works its attempts off, or is killed while waiting. */
  datatype Event = Boot | NewBlock(height: nat, attempts: seq<Attempt>) | Crash

  /** The inner loop from a block number; a process out of attempts is killed at that point. */
  function Work(st: State, next: nat, height: nat, attempts: seq<Attempt>): (State, seq<Entry>)
    decreases |attempts|
  {
    if next > height then (st, [])
    else if attempts == [] then (st.(up := false), [Crashed])
    else
      match attempts[0]
      case FetchFails => Work(st, next, height, attempts[1..])
      case DiesBeforeSave => (st.(up := false), [Handled(next), Crashed])
      case Saves =>
        var (after, log) := Work(st.(last := next, db := next), next + 1, height, attempts[1..]);
        (after, [Handled(next), Saved(next)] + log)
  }

  /** A cursor of zero stands for none: work then starts after the block just announced. */
  function Step(st: State, ev: Event): (State, seq<Entry>) {
    match ev
    case Boot => (if st.up then st else st.(up := true, last := st.db), [])
    case Crash => if st.up then (st.(up := false), [Crashed]) else (st, [])
    case NewBlock(height, attempts) =>
      if !st.up then (st, [])
      else
        var last := if st.last == 0 then height else st.last;
        Work(st.(last := last), last + 1, height, attempts)
  }

  function Run(st: State, events: seq<Event>): (State, seq<Entry>) {
    if events == [] then (st, [])
    else
      var (mid, log) := Run(st, events[..|events| - 1]);
      var (after, more) := Step(mid, events[|events| - 1]);
      (after, log + more)
  }

  /** A relayer that has not started, with the cursor its database was set up with, if any. */
  function Initial(base: nat): State { State(false, 0, base) }

  // ---------- the order of the log ----------

  /** The cursor after a log, from the one the database began with. */
  function LastSaved(base: nat, log: seq<Entry>): nat {
    if log == [] then base
    else if log[|log| - 1].Saved? then log[|log| - 1].height
    else LastSaved(base, log[..|log| - 1])
  }

  /**
   What may come next: after a save, only the height after it is handled; handling is followed by a
   save of that height or by a crash.
   */
  predicate Follows(base: nat, log: seq<Entry>, e: Entry) {
    match e
    case Handled(n) =>
      && n > 0
      && (log == [] || !log[|log| - 1].Handled?)
      && (LastSaved(base, log) > 0 ==> n == LastSaved(base, log) + 1)
    case Saved(n) => log != [] && log[|log| - 1] == Handled(n)
    case Crashed => true
  }

  function Order(base: nat): Logs.Rule<Entry> { (log, e) => Follows(base, log, e) }

  predicate Orderly(base: nat, log: seq<Entry>) { Logs.Orderly(Order(base), log) }

  /** The database holds the last save, and so does the memory of a process that has one. */
  predicate Inv(base: nat, st: State, log: seq<Entry>) {
    && Orderly(base, log) && LastSaved(base, log) == st.db
    && (st.up && st.db > 0 ==> st.last == st.db)
    && (log == [] || !log[|log| - 1].Handled?)
  }

  lemma Push(base: nat, log: seq<Entry>, e: Entry)
    requires Orderly(base, log) && Follows(base, log, e)
    ensures Orderly(base, log + [e])
    ensures LastSaved(base, log + [e]) == if e.Saved? then e.height else LastSaved(base, log)
  {
    assert (log + [e])[..|log|] == log;
    Logs.Extend(Order(base), log, e);
  }

  lemma Save(base: nat, st: State, log: seq<Entry>, n: nat)
    requires Inv(base, st, log) && st.up && n == st.last + 1
    ensures Inv(base, st.(last := n, db := n), log + [Handled(n), Saved(n)])
  {
    hide Orderly, LastSaved;
    Push(base, log, Handled(n));
    Push(base, log + [Handled(n)], Saved(n));
    assert log + [Handled(n)] + [Saved(n)] == log + [Handled(n), Saved(n)];
  }

  lemma Die(base: nat, st: State, log: seq<Entry>)
    requires Inv(base, st, log)
    ensures Inv(base, st.(up := false), log + [Crashed])
  {
    hide Orderly, LastSaved;
    Push(base, log, Crashed);
  }

  lemma DieHandling(base: nat, st: State, log: seq<Entry>, n: nat)
    requires Inv(base, st, log) && st.up && n == st.last + 1
    ensures Inv(base, st.(up := false), log + [Handled(n), Crashed])
  {
    hide Orderly, LastSaved;
    Push(base, log, Handled(n));
    Push(base, log + [Handled(n)], Crashed);
    assert log + [Handled(n)] + [Crashed] == log + [Handled(n), Crashed];
  }

  lemma {:induction false} WorkKeeps(base: nat, st: State, next: nat, height: nat, attempts: seq<Attempt>, log: seq<Entry>)
    requires Inv(base, st, log) && st.up && st.last + 1 == next
    ensures var (after, more) := Work(st, next, height, attempts); Inv(base, after, log + more)
    decreases |attempts|
  {
    hide Inv;
    if next > height {
      assert log + [] == log;
    } else if attempts == [] {
      Die(base, st, log);
    } else {
      match attempts[0]
      case FetchFails => WorkKeeps(base, st, next, height, attempts[1..], log);
      case DiesBeforeSave => DieHandling(base, st, log, next);
      case Saves =>
        Save(base, st, log, next);
        var done, st' := [Handled(next), Saved(next)], st.(last := next, db := next);
        WorkKeeps(base, st', next + 1, height, attempts[1..], log + done);
        var more := Work(st', next + 1, height, attempts[1..]).1;
        assert log + done + more == log + (done + more);
    }
  }

  lemma StepKeeps(base: nat, st: State, ev: Event, log: seq<Entry>)
    requires Inv(base, st, log)
    ensures var (after, more) := Step(st, ev); Inv(base, after, log + more)
  {
    hide Work;
    assert log + [] == log;
    match ev
    case Boot =>
    case Crash => Die(base, st, log);
    case NewBlock(height, attempts) =>
      if st.up {
        var last := if st.last == 0 then height else st.last;
        WorkKeeps(base, st.(last := last), last + 1, height, attempts, log);
      }
  }

  /** Every run, whatever fails in it, leaves an orderly log. */
  lemma {:induction false} RunOrderly(base: nat, events: seq<Event>)
    ensures Inv(base, Run(Initial(base), events).0, Run(Initial(base), events).1)
  {
    hide Step, Inv;
    if events == [] {
      assert Inv(base, Initial(base), []) by { NothingYet(base); }
    } else {
      RunOrderly(base, events[..|events| - 1]);
      var (mid, log) := Run(Initial(base), events[..|events| - 1]);
      StepKeeps(base, mid, events[|events| - 1], log);
    }
  }

  lemma NothingYet(base: nat)
    ensures Inv(base, Initial(base), [])
  {
  }

  // ---------- what an orderly log says ----------

  /** The saved heights, in order. */
  function SavedHeights(log: seq<Entry>): seq<nat> {
    if log == [] then []
    else SavedHeights(log[..|log| - 1]) + if log[|log| - 1].Saved? then [log[|log| - 1].height] else []
  }

  predicate Consecutive(s: seq<nat>) { forall i | 0 <= i < |s| - 1 :: s[i + 1] == s[i] + 1 }

  lemma {:induction false} SavesEnd(base: nat, log: seq<Entry>)
    ensures LastSaved(base, log) == if SavedHeights(log) == [] then base else SavedHeights(log)[|SavedHeights(log)| - 1]
  {
    if log != [] { SavesEnd(base, log[..|log| - 1]); }
  }

  lemma {:induction false} SavedConsecutive(base: nat, log: seq<Entry>)
    requires Orderly(base, log)
    ensures Consecutive(SavedHeights(log)) && forall n | n in SavedHeights(log) :: n > 0
    ensures base > 0 && SavedHeights(log) != [] ==> SavedHeights(log)[0] == base + 1
  {
    if log != [] {
      var init, e := log[..|log| - 1], log[|log| - 1];
      SavedConsecutive(base, init);
      SavesEnd(base, init);
      assert SavedHeights(init) != [] ==> SavedHeights(init)[|SavedHeights(init)| - 1] in SavedHeights(init);
      if e.Saved? {
        assert Orderly(base, init[..|init| - 1]);
        assert LastSaved(base, init) == LastSaved(base, init[..|init| - 1]);
      }
    }
  }

  lemma {:induction false} SavedWasHandled(base: nat, log: seq<Entry>, i: nat)
    requires Orderly(base, log) && i < |SavedHeights(log)|
    ensures Handled(SavedHeights(log)[i]) in log
  {
    var init, e := log[..|log| - 1], log[|log| - 1];
    if e.Saved? && i == |SavedHeights(log)| - 1 {
      assert init[|init| - 1] == Handled(e.height) && log[|init| - 1] == init[|init| - 1];
    } else {
      SavedWasHandled(base, init, i);
      assert forall x | x in init :: x in log;
    }
  }

  lemma {:induction false} Spread(s: seq<nat>, i: nat)
    requires Consecutive(s) && i < |s|
    ensures s[i] == s[0] + i
  {
    if i > 0 { Spread(s, i - 1); assert s[i - 1 + 1] == s[i - 1] + 1; }
  }

  /**
   Over every run, every height after the initial cursor, or from the first one saved if there was
   none, up to the saved cursor was handled: no gap.
   */
  lemma NoGap(base: nat, events: seq<Event>, height: nat)
    requires
      var (st, log) := Run(Initial(base), events);
      height <= st.db && if base > 0 then base < height else SavedHeights(log) != [] && SavedHeights(log)[0] <= height
    ensures Handled(height) in Run(Initial(base), events).1
  {
    hide Run, Orderly, SavedHeights;
    RunOrderly(base, events);
    var (st, log) := Run(Initial(base), events);
    SavesEnd(base, log);
    SavedConsecutive(base, log);
    var s := SavedHeights(log);
    Spread(s, |s| - 1);
    Spread(s, height - s[0]);
    SavedWasHandled(base, log, height - s[0]);
  }

  lemma {:induction false} SavesGrow(base: nat, log: seq<Entry>, i: nat)
    requires Orderly(base, log) && i <= |log| && LastSaved(base, log[..i]) > 0
    ensures LastSaved(base, log) > 0 && LastSaved(base, log[..i]) <= LastSaved(base, log)
    ensures (exists j :: i <= j < |log| && log[j].Saved?) ==> LastSaved(base, log[..i]) < LastSaved(base, log)
    decreases |log|
  {
    if i == |log| {
      assert log[..i] == log;
    } else {
      var init, e := log[..|log| - 1], log[|log| - 1];
      assert init[..i] == log[..i];
      SavesGrow(base, init, i);
      if e.Saved? {
        assert Follows(base, init[..|init| - 1], init[|init| - 1]);
        if |init| - 1 >= i {
          assert LastSaved(base, init) == LastSaved(base, init[..|init| - 1]);
        } else {
          assert init[..i] == init;
        }
      } else {
        assert forall j | i <= j < |log| && log[j].Saved? :: init[j].Saved?;
      }
    }
  }

  /**
   Once a cursor is saved, heights are handled in order, and a height comes again only because the
   process died on it before saving.
   */
  lemma RepeatsOnlyInProgress(base: nat, events: seq<Event>, i: nat, j: nat)
    requires
      var log := Run(Initial(base), events).1;
      i < j < |log| && log[i].Handled? && log[j].Handled? && LastSaved(base, log[..i]) > 0
    ensures
      var log := Run(Initial(base), events).1;
      && log[i].height <= log[j].height
      && (log[i].height == log[j].height ==> log[i + 1] == Crashed)
      && (log[i + 1] == Crashed || log[i + 1] == Saved(log[i].height))
  {
    hide Run;
    RunOrderly(base, events);
    var log := Run(Initial(base), events).1;
    Logs.Prefix(Order(base), log, i);
    Logs.Prefix(Order(base), log, j);
    Logs.Prefix(Order(base), log, i + 1);
    assert log[..i + 1][i] == log[i];
    assert log[..j][..i] == log[..i];
    SavesGrow(base, log[..j], i);
    if log[i + 1].Saved? && i + 1 < j { assert log[..j][i + 1].Saved?; }
  }

  lemma {:induction false} WorkCatchesUp(st: State, next: nat, height: nat, attempts: seq<Attempt>)
    requires st.up && next == st.last + 1 && Work(st, next, height, attempts).0.up
    ensures
      var after := Work(st, next, height, attempts).0;
      if next > height then after == st else after == State(true, height, height)
    decreases |attempts|
  {
    if next <= height {
      if attempts[0].FetchFails? {
        WorkCatchesUp(st, next, height, attempts[1..]);
      } else {
        WorkCatchesUp(st.(last := next, db := next), next + 1, height, attempts[1..]);
      }
    }
  }

  /**
   A process that survives a new block has caught up with it and saved so; the first block announced
   to a process without a cursor is only remembered, neither handled nor saved.
   */
  lemma CatchesUp(st: State, height: nat, attempts: seq<Attempt>)
    requires st.up && Step(st, NewBlock(height, attempts)).0.up
    ensures
      var (after, log) := Step(st, NewBlock(height, attempts));
      && (st.last == 0 ==> after == st.(last := height) && log == [])
      && (0 < st.last < height ==> after == State(true, height, height))
      && (0 < st.last && height <= st.last ==> after == st && log == [])
  {
    var last := if st.last == 0 then height else st.last;
    WorkCatchesUp(st.(last := last), last + 1, height, attempts);
  }

  lemma RunMore(st: State, events: seq<Event>, ev: Event, mid: State, log: seq<Entry>, after: State, total: seq<Entry>)
    requires Run(st, events) == (mid, log) && Step(mid, ev).0 == after && total == log + Step(mid, ev).1
    ensures Run(st, events + [ev]) == (after, total)
  {
    assert (events + [ev])[..|events|] == events;
  }

  /**
   Before anything is saved a crash loses the place: a process learns of a block, dies, learns of a
   later one and handles and saves the next, and the blocks up to the later one are never handled.
   */
  ghost function LostPlace(first: nat, later: nat): seq<Event> {
    [Boot, NewBlock(first, []), Crash, Boot, NewBlock(later, []), NewBlock(later + 1, [Saves])]
  }

  lemma UnsavedPlaceIsLost(first: nat, later: nat)
    requires 0 < first < later
    ensures Run(Initial(0), LostPlace(first, later)) ==
            (State(true, later + 1, later + 1), [Crashed, Handled(later + 1), Saved(later + 1)])
    ensures FirstAnnounced(Initial(0), LostPlace(first, later)) == first
  {
    hide Run, FirstAnnounced;
    var start, e1 := Initial(0), [] + [Boot];
    var e2 := e1 + [NewBlock(first, [])];
    var e3 := e2 + [Crash];
    var e4 := e3 + [Boot];
    var e5 := e4 + [NewBlock(later, [])];
    RunNothing(start);
    RunMore(start, [], Boot, start, [], State(true, 0, 0), []);
    RunMore(start, e1, NewBlock(first, []), State(true, 0, 0), [], State(true, first, 0), []);
    RunMore(start, e2, Crash, State(true, first, 0), [], State(false, first, 0), [Crashed]);
    RunMore(start, e3, Boot, State(false, first, 0), [Crashed], State(true, 0, 0), [Crashed]);
    RunMore(start, e4, NewBlock(later, []), State(true, 0, 0), [Crashed], State(true, later, 0), [Crashed]);
    NextSaved(later);
    RunMore(start, e5, NewBlock(later + 1, [Saves]), State(true, later, 0), [Crashed],
            State(true, later + 1, later + 1), [Crashed, Handled(later + 1), Saved(later + 1)]);
    assert e5 + [NewBlock(later + 1, [Saves])] == LostPlace(first, later);
    BootAnnouncesNothing(start);
    assert e2[..|e2| - 1] == e1 == [Boot];
    AnnouncedMore(start, e2, [Crash, Boot, NewBlock(later, []), NewBlock(later + 1, [Saves])], first);
    assert e2 + [Crash, Boot, NewBlock(later, []), NewBlock(later + 1, [Saves])] == LostPlace(first, later);
  }

  lemma BootAnnouncesNothing(st: State)
    ensures FirstAnnounced(st, [Boot]) == 0
  {
    assert [Boot][..0] == [];
  }

  lemma NextSaved(last: nat)
    requires last > 0
    ensures Step(State(true, last, 0), NewBlock(last + 1, [Saves])) ==
            (State(true, last + 1, last + 1), [Handled(last + 1), Saved(last + 1)])
  {
    var st := State(true, last + 1, last + 1);
    assert [Saves][1..] == [];
    assert Work(st, last + 2, last + 1, []) == (st, []);
    assert [Handled(last + 1), Saved(last + 1)] + [] == [Handled(last + 1), Saved(last + 1)];
  }

  /** The first height announced to a running process; zero if none was. */
  function FirstAnnounced(st: State, events: seq<Event>): nat {
    if events == [] then 0
    else
      var init, ev := events[..|events| - 1], events[|events| - 1];
      if FirstAnnounced(st, init) > 0 then FirstAnnounced(st, init)
      else if ev.NewBlock? && Run(st, init).0.up then ev.height else 0
  }

  lemma {:induction false} AnnouncedMore(st: State, events: seq<Event>, more: seq<Event>, height: nat)
    requires events != [] && height > 0 && events[|events| - 1] == NewBlock(height, [])
    requires Run(st, events[..|events| - 1]).0.up && FirstAnnounced(st, events[..|events| - 1]) == 0
    ensures FirstAnnounced(st, events + more) == height
    decreases |more|
  {
    if more == [] {
      assert events + more == events;
    } else {
      AnnouncedMore(st, events, more[..|more| - 1], height);
      assert (events + more)[..|events + more| - 1] == events + more[..|more| - 1];
    }
  }

  /** No height above the initial cursor, or above the first one announced if there was none, is skipped below the saved cursor. */
  predicate NothingSkipped(base: nat, events: seq<Event>) {
    var (st, log) := Run(Initial(base), events);
    forall h | (if base > 0 then base else FirstAnnounced(Initial(base), events)) < h <= st.db :: Handled(h) in log
  }

  /** Nothing is skipped in any run, whatever fails in it, exactly when the relayer starts with a cursor. */
  lemma NothingSkippedIff(base: nat)
    ensures (forall events :: NothingSkipped(base, events)) <==> base > 0
  {
    hide Run, FirstAnnounced;
    if base > 0 {
      forall events ensures NothingSkipped(base, events) {
        forall h | base < h <= Run(Initial(base), events).0.db ensures Handled(h) in Run(Initial(base), events).1 {
          NoGap(base, events, h);
        }
      }
    } else {
      UnsavedPlaceIsLost(1, 2);
      assert Handled(2) !in Run(Initial(0), LostPlace(1, 2)).1;
      assert !NothingSkipped(0, LostPlace(1, 2));
    }
  }

  lemma RunNothing(st: State)
    ensures Run(st, []) == (st, [])
  {
  }

  // ---------- the loop itself ----------

  class CosmosSub {
    var up: bool
    var lastProcessedBlock: nat
    var db: nat
    ghost var log: seq<Entry>

    ghost function View(): State
      reads this
    {
      State(up, lastProcessedBlock, db)
    }

    constructor (base: nat)
      ensures View() == Initial(base) && log == []
    {
      up, lastProcessedBlock, db, log := false, 0, base, [];
    }

    method Start()
      modifies this
      ensures (View(), log) == (Step(old(View()), Boot).0, old(log))
    {
      if !up {
        up := true;
        lastProcessedBlock := db;
      }
    }

    method OnNewBlock(blockHeight: nat, attempts: seq<Attempt>)
      requires up
      modifies this
      ensures View() == Step(old(View()), NewBlock(blockHeight, attempts)).0
      ensures log == old(log) + Step(old(View()), NewBlock(blockHeight, attempts)).1
    {
      if lastProcessedBlock == 0 { lastProcessedBlock := blockHeight; }
      var blockNumber: nat, k: nat := lastProcessedBlock + 1, 0;
      ghost var whole := Work(View(), blockNumber, blockHeight, attempts);
      while blockNumber <= blockHeight
        invariant k <= |attempts| && up
        invariant
          var rest := Work(View(), blockNumber, blockHeight, attempts[k..]);
          rest.0 == whole.0 && log + rest.1 == old(log) + whole.1
        decreases |attempts| - k
      {
        if k == |attempts| {
          up, log := false, log + [Crashed];
          return;
        }
        var attempt := attempts[k];
        assert attempts[k..][0] == attempt && attempts[k..][1..] == attempts[k + 1..];
        k := k + 1;
        if attempt == FetchFails { continue; }
        if attempt == DiesBeforeSave {
          up, log := false, log + [Handled(blockNumber), Crashed];
          return;
        }
        ghost var st, before := View(), log;
        lastProcessedBlock := blockNumber;
        db := lastProcessedBlock;
        log := log + [Handled(blockNumber), Saved(blockNumber)];
        ghost var more := Work(View(), blockNumber + 1, blockHeight, attempts[k..]).1;
        assert before + ([Handled(blockNumber), Saved(blockNumber)] + more) == log + more;
        blockNumber := blockNumber + 1;
      }
    }
  }
}
