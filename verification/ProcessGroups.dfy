/** The lock-free table of live process groups. Every atomic access to a cell is
    one step, and the steps of any number of registrations, guard drops and
    signal scans interleave freely. */
module ProcessGroups {
  import opened Prelude

  const MAX_TRACKED: nat := 256

  /** Names one registration (and its guard) or one scan. */
  type Actor = nat

  datatype Activity =
    | Registering(pgid: int, next: nat)                           // has failed to claim cells below next
    | Holding(pgid: int, slot: Option<nat>)                       // the guard; no slot means inert
    | Dropped(pgid: int)
    | Scanning(next: nat, loaded: Option<int>, killed: set<int>)  // a loaded id is killed in a later step
    | Scanned(killed: set<int>)

  datatype Table = Table(cells: seq<int>, actors: map<Actor, Activity>)

  datatype Action =
    | Register(a: Actor, pgid: int)
    | Claim(a: Actor)
    | Drop(a: Actor)
    | Scan(a: Actor)
    | Load(a: Actor)
    | Kill(a: Actor)

  function Empty(): Table {
    Table(seq(MAX_TRACKED, i => 0), map[])
  }

  predicate Enabled(t: Table, x: Action) {
    match x
    case Register(a, _) => a !in t.actors
    case Claim(a) => a in t.actors && t.actors[a].Registering?
    case Drop(a) => a in t.actors && t.actors[a].Holding?
    case Scan(a) => a !in t.actors
    case Load(a) => a in t.actors && t.actors[a].Scanning? && t.actors[a].loaded.None?
    case Kill(a) => a in t.actors && t.actors[a].Scanning? && t.actors[a].loaded.Some?
  }

  predicate Shaped(t: Table) {
    && |t.cells| == MAX_TRACKED
    && (forall a :: a in t.actors && t.actors[a].Registering? ==> t.actors[a].next <= MAX_TRACKED)
    && (forall a :: a in t.actors && t.actors[a].Scanning? ==> t.actors[a].next <= MAX_TRACKED)
    && (forall a :: a in t.actors && t.actors[a].Holding? && t.actors[a].slot.Some? ==>
          t.actors[a].slot.value < MAX_TRACKED)
  }

  /** A registration refuses a non-positive id at once; otherwise it tries each
      cell in turn with one compare-exchange a step and gives up after the last. */
  function Step(t: Table, x: Action): Table
    requires Shaped(t) && Enabled(t, x)
  {
    match x
    case Register(a, pgid) =>
      t.(actors := t.actors[a := if pgid > 0 then Registering(pgid, 0) else Holding(pgid, None)])
    case Claim(a) =>
      var me := t.actors[a];
      if me.next == MAX_TRACKED then t.(actors := t.actors[a := Holding(me.pgid, None)])
      else if t.cells[me.next] == 0 then
        Table(t.cells[me.next := me.pgid], t.actors[a := Holding(me.pgid, Some(me.next))])
      else t.(actors := t.actors[a := Registering(me.pgid, me.next + 1)])
    case Drop(a) =>
      var me := t.actors[a];
      Table(if me.slot.Some? then t.cells[me.slot.value := 0] else t.cells,
            t.actors[a := Dropped(me.pgid)])
    case Scan(a) =>
      t.(actors := t.actors[a := Scanning(0, None, {})])
    case Load(a) =>
      var me := t.actors[a];
      if me.next == MAX_TRACKED then t.(actors := t.actors[a := Scanned(me.killed)])
      else
        var seen := t.cells[me.next];
        t.(actors := t.actors[a := Scanning(me.next + 1, if seen != 0 then Some(seen) else None, me.killed)])
    case Kill(a) =>
      var me := t.actors[a];
      var victims := if me.loaded.value > 0 then {me.loaded.value} else {};
      t.(actors := t.actors[a := Scanning(me.next, None, me.killed + victims)])
  }

  // ---- Guards and cells

  /** Actor a is the live guard of this group id in this cell. */
  predicate Owns(t: Table, a: Actor, slot: nat, pgid: int) {
    a in t.actors && t.actors[a] == Holding(pgid, Some(slot))
  }

  // A guard's cell holds exactly its group id.
  ghost predicate GuardsHoldTheirCells(t: Table)
    requires Shaped(t)
  {
    forall a, slot: nat, pgid :: Owns(t, a, slot, pgid) ==> pgid > 0 && t.cells[slot] == pgid
  }

  ghost predicate CellsAreNotShared(t: Table) {
    forall a, b, slot: nat, p, q :: Owns(t, a, slot, p) && Owns(t, b, slot, q) ==> a == b
  }

  ghost predicate OccupiedCellsAreOwned(t: Table)
    requires Shaped(t)
  {
    forall slot: nat :: slot < MAX_TRACKED && t.cells[slot] != 0 ==> exists a :: Owns(t, a, slot, t.cells[slot])
  }

  predicate RealIds(t: Table) {
    forall a :: a in t.actors && t.actors[a].Registering? ==> t.actors[a].pgid > 0
  }

  /** Guards and occupied cells match one to one. */
  ghost predicate Sound(t: Table) {
    Shaped(t) && RealIds(t) && GuardsHoldTheirCells(t) && CellsAreNotShared(t) && OccupiedCellsAreOwned(t)
  }

  lemma EmptyIsSound()
    ensures Sound(Empty())
  {
  }

  lemma StepKeepsShape(t: Table, x: Action)
    requires Shaped(t) && RealIds(t) && Enabled(t, x)
    ensures Shaped(Step(t, x)) && RealIds(Step(t, x))
  {
  }

  // Where a guard of the new state comes from.
  lemma OwnersAfter(t: Table, x: Action, a: Actor, slot: nat, pgid: int)
    requires Shaped(t) && Enabled(t, x) && Owns(Step(t, x), a, slot, pgid)
    ensures a != x.a ==> Owns(t, a, slot, pgid)
    ensures a == x.a ==> x.Claim? && t.actors[a] == Registering(pgid, slot) && t.cells[slot] == 0
  {
  }

  lemma StepIsSound(t: Table, x: Action)
    requires Sound(t) && Enabled(t, x)
    ensures Sound(Step(t, x))
  {
    var u := Step(t, x);
    StepKeepsShape(t, x);
    forall a, slot: nat, pgid | Owns(u, a, slot, pgid)
      ensures pgid > 0 && u.cells[slot] == pgid
    {
      OwnersAfter(t, x, a, slot, pgid);
      if x.Drop? && t.actors[x.a].slot == Some(slot) {
        assert Owns(t, x.a, slot, t.actors[x.a].pgid);
      }
    }
    forall a, b, slot: nat, p, q | Owns(u, a, slot, p) && Owns(u, b, slot, q)
      ensures a == b
    {
      OwnersAfter(t, x, a, slot, p);
      OwnersAfter(t, x, b, slot, q);
    }
    StepKeepsOwners(t, x);
  }

  lemma StepKeepsOwners(t: Table, x: Action)
    requires Sound(t) && Enabled(t, x)
    ensures Shaped(Step(t, x)) && OccupiedCellsAreOwned(Step(t, x))
  {
    var u := Step(t, x);
    StepKeepsShape(t, x);
    forall slot: nat | slot < MAX_TRACKED && u.cells[slot] != 0
      ensures exists a :: Owns(u, a, slot, u.cells[slot])
    {
      if t.cells[slot] == 0 {
        assert Owns(u, x.a, slot, u.cells[slot]);
      } else {
        var a :| Owns(t, a, slot, t.cells[slot]);
        assert Owns(u, a, slot, u.cells[slot]);
      }
    }
  }

  // ---- Runs

  /** A run: its states, and the action between each two of them. */
  datatype Run = Run(states: seq<Table>, actions: seq<Action>)

  ghost predicate Valid(r: Run) {
    && |r.states| == |r.actions| + 1
    && r.states[0] == Empty()
    && (forall i :: 0 <= i < |r.actions| ==>
          Shaped(r.states[i]) && Enabled(r.states[i], r.actions[i]) && r.states[i + 1] == Step(r.states[i], r.actions[i]))
  }

  /** In every state of every interleaving, live guards own distinct cells that
      hold exactly their group ids, and no other cell is occupied. */
  lemma {:induction false} RunIsSound(r: Run, k: nat)
    requires Valid(r) && k <= |r.actions|
    ensures Sound(r.states[k])
  {
    if k == 0 {
      EmptyIsSound();
    } else {
      RunIsSound(r, k - 1);
      StepIsSound(r.states[k - 1], r.actions[k - 1]);
    }
  }

  // ---- Scans

  // How far a scan has got with a guard's cell: past it only with its id in hand.
  predicate Covers(t: Table, s: Actor, slot: nat, pgid: int) {
    s in t.actors &&
    match t.actors[s]
    case Scanning(next, loaded, killed) => next <= slot || pgid in killed || loaded == Some(pgid)
    case Scanned(killed) => pgid in killed
    case _ => false
  }

  lemma StepKeepsCover(t: Table, x: Action, s: Actor, g: Actor, slot: nat, pgid: int)
    requires Sound(t) && Enabled(t, x) && Owns(t, g, slot, pgid)
    requires Covers(t, s, slot, pgid)
    ensures Covers(Step(t, x), s, slot, pgid)
  {
    assert t.cells[slot] == pgid;
  }

  lemma {:induction false} ScanCovers(r: Run, start: nat, end: nat, s: Actor, g: Actor, slot: nat, pgid: int)
    requires Valid(r) && start < end <= |r.actions| && r.actions[start] == Scan(s)
    requires forall i :: start <= i < end ==> Owns(r.states[i], g, slot, pgid)
    ensures Covers(r.states[end], s, slot, pgid)
  {
    assert r.states[end] == Step(r.states[end - 1], r.actions[end - 1]);
    if start < end - 1 {
      ScanCovers(r, start, end - 1, s, g, slot, pgid);
      RunIsSound(r, end - 1);
      StepKeepsCover(r.states[end - 1], r.actions[end - 1], s, g, slot, pgid);
    }
  }

  // A guard keeps its cell until it is dropped.
  lemma {:induction false} StillOwns(r: Run, start: nat, i: nat, g: Actor, slot: nat, pgid: int)
    requires Valid(r) && start <= i <= |r.actions| && Owns(r.states[start], g, slot, pgid)
    requires forall k :: start <= k < i ==> r.actions[k] != Drop(g)
    ensures Owns(r.states[i], g, slot, pgid)
  {
    if start < i {
      StillOwns(r, start, i - 1, g, slot, pgid);
      assert r.states[i] == Step(r.states[i - 1], r.actions[i - 1]);
    }
  }

  /** A scan that starts once a guard owns its cell and ends before the guard is
      dropped kills that guard's group, whatever else happens in between. */
  lemma ScanKillsLiveGroups(r: Run, start: nat, end: nat, s: Actor, g: Actor, slot: nat, pgid: int)
    requires Valid(r) && start < end <= |r.actions| && r.actions[start] == Scan(s)
    requires Owns(r.states[start], g, slot, pgid) && forall i :: start <= i < end ==> r.actions[i] != Drop(g)
    requires s in r.states[end].actors && r.states[end].actors[s].Scanned?
    ensures pgid in r.states[end].actors[s].killed
  {
    forall i | start <= i < end ensures Owns(r.states[i], g, slot, pgid) {
      StillOwns(r, start, i, g, slot, pgid);
    }
    ScanCovers(r, start, end, s, g, slot, pgid);
  }

  // The scan read this id from a live guard's cell at step i.
  ghost predicate ReadAt(r: Run, s: Actor, pgid: int, i: nat)
    requires Valid(r)
  {
    && i < |r.actions| && r.actions[i] == Load(s)
    && r.states[i].actors[s].next < MAX_TRACKED
    && r.states[i].cells[r.states[i].actors[s].next] == pgid
    && exists g :: Owns(r.states[i], g, r.states[i].actors[s].next, pgid)
  }

  // Ids a scan has killed or is about to kill.
  function Targets(t: Table, s: Actor): set<int> {
    if s !in t.actors then {}
    else match t.actors[s]
      case Scanning(_, loaded, killed) => killed + if loaded.Some? then {loaded.value} else {}
      case Scanned(killed) => killed
      case _ => {}
  }

  /** A scan kills only ids that a cell held at the moment the scan read it, each
      of them the id of a guard that was live then. */
  lemma {:induction false} ScanKillsOnlyWhatItRead(r: Run, k: nat, s: Actor, pgid: int)
    requires Valid(r) && k <= |r.actions| && pgid in Targets(r.states[k], s)
    ensures exists i :: 0 <= i < k && ReadAt(r, s, pgid, i)
  {
    if k > 0 {
      var t, x := r.states[k - 1], r.actions[k - 1];
      assert r.states[k] == Step(t, x);
      if pgid in Targets(t, s) {
        ScanKillsOnlyWhatItRead(r, k - 1, s, pgid);
      } else {
        RunIsSound(r, k - 1);
        assert x == Load(s) && t.cells[t.actors[s].next] == pgid;
        assert ReadAt(r, s, pgid, k - 1);
      }
    }
  }

  // ---- Giving up

  // The registration found this cell occupied when it tried it, at step i.
  ghost predicate FoundOccupied(r: Run, a: Actor, slot: nat, i: nat)
    requires Valid(r)
  {
    && i < |r.actions| && r.actions[i] == Claim(a)
    && r.states[i].actors[a].next == slot < MAX_TRACKED
    && r.states[i].cells[slot] != 0
  }

  ghost predicate FoundOccupiedBefore(r: Run, a: Actor, slot: nat, k: nat)
    requires Valid(r)
  {
    exists i :: 0 <= i < k && FoundOccupied(r, a, slot, i)
  }

  // Cells the registration is known to have found occupied.
  predicate HasPassed(t: Table, a: Actor, slot: nat) {
    && a in t.actors && slot < MAX_TRACKED
    && match t.actors[a]
       case Registering(_, next) => slot < next
       case Holding(pgid, None) => pgid > 0
       case Holding(_, Some(mine)) => slot < mine
       case _ => false
  }

  /** A registration passes a cell, for the next one or for good, only after it
      found the cell occupied at some moment of its own scan. */
  lemma {:induction false} PassedCellsWereOccupied(r: Run, k: nat, a: Actor, slot: nat)
    requires Valid(r) && k <= |r.actions| && HasPassed(r.states[k], a, slot)
    ensures FoundOccupiedBefore(r, a, slot, k)
  {
    if k > 0 {
      var t, x := r.states[k - 1], r.actions[k - 1];
      assert r.states[k] == Step(t, x);
      if HasPassed(t, a, slot) {
        PassedCellsWereOccupied(r, k - 1, a, slot);
      } else {
        assert FoundOccupied(r, a, slot, k - 1);
      }
    }
  }

  // Once found occupied, a cell stays behind the registration.
  predicate IsBehind(t: Table, a: Actor, slot: nat) {
    HasPassed(t, a, slot) || (a in t.actors && t.actors[a].Dropped?)
  }

  lemma StepKeepsBehind(t: Table, x: Action, a: Actor, slot: nat)
    requires Shaped(t) && RealIds(t) && Enabled(t, x) && IsBehind(t, a, slot)
    ensures IsBehind(Step(t, x), a, slot)
  {
  }

  lemma {:induction false} FoundCellsAreBehind(r: Run, i: nat, k: nat, a: Actor, slot: nat)
    requires Valid(r) && i < k <= |r.actions| && FoundOccupied(r, a, slot, i)
    ensures IsBehind(r.states[k], a, slot)
  {
    if i < k - 1 {
      FoundCellsAreBehind(r, i, k - 1, a, slot);
      RunIsSound(r, k - 1);
      StepKeepsBehind(r.states[k - 1], r.actions[k - 1], a, slot);
    }
    assert r.states[k] == Step(r.states[k - 1], r.actions[k - 1]);
  }

  /** A registration of a real group id that has returned its guard is inert if
      and only if it found every one of the 256 cells occupied, each at its own
      moment. */
  lemma InertExactlyWhenEachCellWasOccupied(r: Run, k: nat, a: Actor, pgid: int, mine: Option<nat>)
    requires Valid(r) && k <= |r.actions| && pgid > 0
    requires a in r.states[k].actors && r.states[k].actors[a] == Holding(pgid, mine)
    ensures mine.None? <==> forall slot: nat | slot < MAX_TRACKED :: FoundOccupiedBefore(r, a, slot, k)
  {
    if mine.None? {
      forall slot: nat | slot < MAX_TRACKED
        ensures FoundOccupiedBefore(r, a, slot, k)
      {
        PassedCellsWereOccupied(r, k, a, slot);
      }
    } else {
      RunIsSound(r, k);
      if FoundOccupiedBefore(r, a, mine.value, k) {
        var i :| 0 <= i < k && FoundOccupied(r, a, mine.value, i);
        FoundCellsAreBehind(r, i, k, a, mine.value);
      }
    }
  }

  // ---- When giving up means a full table

  predicate Full(t: Table) {
    forall slot :: 0 <= slot < |t.cells| ==> t.cells[slot] != 0
  }

  /** Step j drops the guard of a cell that the registration has behind it. */
  ghost predicate FreedBehind(r: Run, a: Actor, slot: nat, j: nat)
    requires Valid(r)
  {
    && j < |r.actions| && r.actions[j].Drop?
    && r.states[j].actors[r.actions[j].a].slot == Some(slot)
    && HasPassed(r.states[j], a, slot)
  }

  /** Step m claims the cell for some registration. */
  ghost predicate ClaimedAt(r: Run, slot: nat, m: nat)
    requires Valid(r)
  {
    && m < |r.actions| && r.actions[m].Claim?
    && r.states[m].actors[r.actions[m].a].next == slot < MAX_TRACKED
    && r.states[m].cells[slot] == 0
  }

  ghost predicate ClaimedBetween(r: Run, slot: nat, j: nat, k: nat)
    requires Valid(r)
  {
    exists m :: j < m < k && ClaimedAt(r, slot, m)
  }

  ghost predicate FreedForGood(r: Run, a: Actor, slot: nat, k: nat)
    requires Valid(r)
  {
    exists j :: 0 <= j < k && FreedBehind(r, a, slot, j) && !ClaimedBetween(r, slot, j, k)
  }

  // A cell behind the registration is free only if it was freed there for good.
  lemma {:induction false} FreeCellsWereFreed(r: Run, k: nat, a: Actor, slot: nat)
    requires Valid(r) && k <= |r.actions| && HasPassed(r.states[k], a, slot)
    requires Shaped(r.states[k]) && r.states[k].cells[slot] == 0
    ensures FreedForGood(r, a, slot, k)
  {
    if k > 0 {
      var t, x := r.states[k - 1], r.actions[k - 1];
      assert r.states[k] == Step(t, x);
      if t.cells[slot] != 0 {
        assert FreedBehind(r, a, slot, k - 1);
        assert !ClaimedBetween(r, slot, k - 1, k);
      } else {
        FreeCellsWereFreed(r, k - 1, a, slot);
        RunIsSound(r, k - 1);
        var j :| 0 <= j < k - 1 && FreedBehind(r, a, slot, j) && !ClaimedBetween(r, slot, j, k - 1);
        assert !ClaimedAt(r, slot, k - 1);
        assert !ClaimedBetween(r, slot, j, k);
      }
    }
  }

  // A free cell that is occupied later was claimed in between.
  lemma {:induction false} OccupiedCellsWereClaimed(r: Run, j: nat, k: nat, slot: nat)
    requires Valid(r) && j < k <= |r.actions| && slot < MAX_TRACKED
    requires Shaped(r.states[j + 1]) && r.states[j + 1].cells[slot] == 0
    requires Shaped(r.states[k]) && r.states[k].cells[slot] != 0
    ensures ClaimedBetween(r, slot, j, k)
  {
    var t, x := r.states[k - 1], r.actions[k - 1];
    assert r.states[k] == Step(t, x);
    assert j < k - 1;
    if t.cells[slot] == 0 {
      assert ClaimedAt(r, slot, k - 1);
    } else {
      OccupiedCellsWereClaimed(r, j, k - 1, slot);
    }
  }

  /** A registration that gives up leaves a full table if and only if every cell
      freed behind it was claimed again in the meantime. */
  lemma InertTableIsFullExactlyWhen(r: Run, k: nat, a: Actor, pgid: int)
    requires Valid(r) && k <= |r.actions| && pgid > 0
    requires a in r.states[k].actors && r.states[k].actors[a] == Holding(pgid, None)
    ensures Full(r.states[k]) <==>
            forall j, slot | 0 <= j < k && FreedBehind(r, a, slot, j) :: ClaimedBetween(r, slot, j, k)
  {
    RunIsSound(r, k);
    if Full(r.states[k]) {
      forall j, slot | 0 <= j < k && FreedBehind(r, a, slot, j)
        ensures ClaimedBetween(r, slot, j, k)
      {
        RunIsSound(r, j);
        RunIsSound(r, j + 1);
        OccupiedCellsWereClaimed(r, j, k, slot);
      }
    } else {
      var slot :| 0 <= slot < MAX_TRACKED && r.states[k].cells[slot] == 0;
      FreeCellsWereFreed(r, k, a, slot);
    }
  }

  /** In particular the table is full when no guard at all was dropped since the
      registration began. */
  lemma InertTableIsFullWithoutDrops(r: Run, start: nat, k: nat, a: Actor, pgid: int)
    requires Valid(r) && start < k <= |r.actions| && r.actions[start] == Register(a, pgid) && pgid > 0
    requires a in r.states[k].actors && r.states[k].actors[a] == Holding(pgid, None)
    requires forall j :: start < j < k ==> !r.actions[j].Drop?
    ensures Full(r.states[k])
  {
    forall j, slot | 0 <= j < k && FreedBehind(r, a, slot, j)
      ensures false
    {
      NotYetRegistering(r, start, j, a);
    }
    InertTableIsFullExactlyWhen(r, k, a, pgid);
  }

  // An actor is unknown until the step that brings it in.
  lemma {:induction false} NotYetRegistering(r: Run, start: nat, j: nat, a: Actor)
    requires Valid(r) && j <= start < |r.actions| && r.actions[start].Register? && r.actions[start].a == a
    ensures a !in r.states[j].actors
    decreases start - j
  {
    if j < start {
      NotYetRegistering(r, start, j + 1, a);
      assert r.states[j + 1] == Step(r.states[j], r.actions[j]);
    }
  }

  // ---- Full at no instant

  ghost predicate NeverFull(r: Run) {
    Valid(r) && Shaped(Last(r)) && forall i :: 0 <= i < |r.states| ==> !Full(r.states[i])
  }

  function Last(r: Run): Table
    requires r.states != []
  {
    r.states[|r.states| - 1]
  }

  lemma StepKeepsShaped(t: Table, x: Action)
    requires Shaped(t) && Enabled(t, x)
    ensures Shaped(Step(t, x))
  {
  }

  // One more step, into a state in which the given cell is free.
  lemma Extend(r: Run, x: Action, free: nat) returns (q: Run)
    requires NeverFull(r) && Enabled(Last(r), x) && free < MAX_TRACKED
    requires Step(Last(r), x).cells[free] == 0
    ensures NeverFull(q) && Last(q) == Step(Last(r), x)
  {
    var n := |r.actions|;
    StepKeepsShaped(Last(r), x);
    q := Run(r.states + [Step(Last(r), x)], r.actions + [x]);
    forall i | 0 <= i < n + 1
      ensures Shaped(q.states[i]) && Enabled(q.states[i], q.actions[i]) && q.states[i + 1] == Step(q.states[i], q.actions[i])
    {
      assert q.states[i] == r.states[i];
      if i < n {
        assert q.states[i + 1] == r.states[i + 1] && q.actions[i] == r.actions[i];
      }
    }
    assert !Full(Last(q));
  }

  // One registration walks past the first n cells, all of them occupied.
  lemma {:induction false} WalkPast(r: Run, a: Actor, pgid: int, n: nat, free: nat) returns (q: Run)
    requires NeverFull(r) && n <= free < MAX_TRACKED && pgid > 0 && a !in Last(r).actors
    requires forall slot :: 0 <= slot < n ==> Last(r).cells[slot] != 0
    requires Last(r).cells[free] == 0
    ensures NeverFull(q)
    ensures Last(q) == Table(Last(r).cells, Last(r).actors[a := Registering(pgid, n)])
  {
    if n == 0 {
      q := Extend(r, Register(a, pgid), free);
    } else {
      q := WalkPast(r, a, pgid, n - 1, free);
      q := Extend(q, Claim(a), free);
    }
  }

  lemma ClaimFree(r: Run, a: Actor, pgid: int, slot: nat, free: nat) returns (q: Run)
    requires NeverFull(r) && a in Last(r).actors && Last(r).actors[a] == Registering(pgid, slot)
    requires slot < MAX_TRACKED && free < MAX_TRACKED && slot != free
    requires Last(r).cells[slot] == 0 && Last(r).cells[free] == 0
    ensures NeverFull(q)
    ensures Last(q) == Table(Last(r).cells[slot := pgid], Last(r).actors[a := Holding(pgid, Some(slot))])
  {
    q := Extend(r, Claim(a), free);
  }

  // Guards 0, 1, ... n - 1 own the first n cells and nothing else has happened.
  function Filled(n: nat): Table {
    Table(seq(MAX_TRACKED, slot => if slot < n then slot + 1 else 0),
          map a: Actor | 0 <= a < n :: Holding(a + 1, Some(a)))
  }

  lemma {:induction false} Fill(n: nat) returns (r: Run)
    requires n < MAX_TRACKED
    ensures NeverFull(r) && Last(r) == Filled(n)
  {
    if n == 0 {
      r := Run([Empty()], []);
      assert Empty().cells[0] == 0;
      assert Empty().actors == Filled(0).actors;
    } else {
      r := Fill(n - 1);
      r := WalkPast(r, n - 1, n, n - 1, n);
      r := ClaimFree(r, n - 1, n, n - 1, n);
      assert Last(r).cells == Filled(n).cells;
      assert Last(r).actors == Filled(n).actors;
    }
  }

  /** Giving up does not mean that the table was full at any instant: in this run
      a registration of a real group id ends inert, yet in every state of the run
      some cell is free. */
  lemma InertThoughNeverFull() returns (r: Run, a: Actor, pgid: int)
    ensures NeverFull(r) && pgid > 0
    ensures a in Last(r).actors && Last(r).actors[a] == Holding(pgid, None)
  {
    var last := MAX_TRACKED - 1;
    r := Fill(last);
    a, pgid := 1_000, 1_000;
    var rival := 1_001;
    r := WalkPast(r, a, pgid, last, last);
    r := WalkPast(r, rival, rival, last, last);
    r := LoseTheRace(r, a, pgid, rival, last);
  }

  // Cell 0 is freed behind a registration that a rival then beats to the last cell.
  lemma LoseTheRace(r: Run, a: Actor, pgid: int, rival: Actor, last: nat) returns (q: Run)
    requires NeverFull(r) && last == MAX_TRACKED - 1 && a != rival && rival > 0 && a > 0
    requires a in Last(r).actors && Last(r).actors[a] == Registering(pgid, last)
    requires rival in Last(r).actors && Last(r).actors[rival] == Registering(rival, last)
    requires 0 in Last(r).actors && Last(r).actors[0] == Holding(1, Some(0))
    requires Last(r).cells[last] == 0
    ensures NeverFull(q) && a in Last(q).actors && Last(q).actors[a] == Holding(pgid, None)
  {
    q := Extend(r, Drop(0), 0);
    q := ClaimFree(q, rival, rival, last, 0);
    q := Extend(q, Claim(a), 0);
    q := Extend(q, Claim(a), 0);
  }

  // ---- One thread at a time

  function FirstFree(cells: seq<int>, from: nat): (slot: Option<nat>)
    requires from <= |cells|
    ensures slot.Some? ==>
              && from <= slot.value < |cells| && cells[slot.value] == 0
              && forall i :: from <= i < slot.value ==> cells[i] != 0
    ensures slot.None? ==> forall i :: from <= i < |cells| ==> cells[i] != 0
    decreases |cells| - from
  {
    if from == |cells| then None
    else if cells[from] == 0 then Some(from)
    else FirstFree(cells, from + 1)
  }

  // A registration running alone until it returns its guard.
  function Alone(t: Table, a: Actor): Table
    requires Shaped(t) && a in t.actors && t.actors[a].Registering?
    decreases MAX_TRACKED - t.actors[a].next
  {
    var u := Step(t, Claim(a));
    if u.actors[a].Registering? then Alone(u, a) else u
  }

  /** Without interference a registration takes the first free cell, and returns
      an inert guard exactly when there is none. */
  lemma {:induction false} AloneTakesTheFirstFree(t: Table, a: Actor, pgid: int, next: nat)
    requires Shaped(t) && a in t.actors && t.actors[a] == Registering(pgid, next)
    ensures var slot := FirstFree(t.cells, next);
            Alone(t, a) == Table(if slot.Some? then t.cells[slot.value := pgid] else t.cells,
                                 t.actors[a := Holding(pgid, slot)])
    decreases MAX_TRACKED - next
  {
    var u := Step(t, Claim(a));
    if u.actors[a].Registering? {
      AloneTakesTheFirstFree(u, a, pgid, next + 1);
      assert t.actors[a := Registering(pgid, next + 1)][a := Holding(pgid, FirstFree(t.cells, next))]
          == t.actors[a := Holding(pgid, FirstFree(t.cells, next))];
    }
  }

  // A scan running alone to its end.
  function ScanAlone(t: Table, s: Actor): Table
    requires Shaped(t) && s in t.actors && t.actors[s].Scanning?
    decreases MAX_TRACKED - t.actors[s].next, if t.actors[s].loaded.Some? then 1 else 0
  {
    var u := Step(t, if t.actors[s].loaded.Some? then Kill(s) else Load(s));
    if u.actors[s].Scanning? then ScanAlone(u, s) else u
  }

  function LiveFrom(cells: seq<int>, from: nat): set<int>
    requires from <= |cells|
    decreases |cells| - from
  {
    if from == |cells| then {}
    else (if cells[from] > 0 then {cells[from]} else {}) + LiveFrom(cells, from + 1)
  }

  /** Without interference a scan kills exactly the group ids in the table, and
      changes nothing else. */
  lemma {:induction false} ScanAloneKillsEveryLiveId(t: Table, s: Actor, next: nat, loaded: Option<int>, killed: set<int>)
    requires Shaped(t) && s in t.actors && t.actors[s] == Scanning(next, loaded, killed)
    ensures var found := if loaded.Some? && loaded.value > 0 then {loaded.value} else {};
            ScanAlone(t, s) == Table(t.cells, t.actors[s := Scanned(killed + found + LiveFrom(t.cells, next))])
    decreases MAX_TRACKED - next, if loaded.Some? then 1 else 0
  {
    if loaded.Some? {
      var found := if loaded.value > 0 then {loaded.value} else {};
      ScanStep(t, s, Step(t, Kill(s)), next, None, killed + found, killed + found + LiveFrom(t.cells, next));
      ScanAloneKillsEveryLiveId(Step(t, Kill(s)), s, next, None, killed + found);
      assert killed + found + {} == killed + found;
    } else if next < MAX_TRACKED {
      var seen := if t.cells[next] != 0 then Some(t.cells[next]) else None;
      ScanAloneKillsEveryLiveId(Step(t, Load(s)), s, next + 1, seen, killed);
      var head := if t.cells[next] > 0 then {t.cells[next]} else {};
      assert killed + head + LiveFrom(t.cells, next + 1) == killed + {} + LiveFrom(t.cells, next);
      ScanStep(t, s, Step(t, Load(s)), next + 1, seen, killed, killed + head + LiveFrom(t.cells, next + 1));
    } else {
      assert killed + {} + {} == killed;
    }
  }

  lemma ScanStep(t: Table, s: Actor, u: Table, next: nat, loaded: Option<int>, killed: set<int>, final: set<int>)
    requires u.cells == t.cells && u.actors == t.actors[s := Scanning(next, loaded, killed)]
    ensures u.actors[s := Scanned(final)] == t.actors[s := Scanned(final)]
  {
  }

  function Positive(cells: seq<int>): seq<int> {
    if cells == [] then []
    else Positive(cells[..|cells| - 1]) + if cells[|cells| - 1] > 0 then [cells[|cells| - 1]] else []
  }

  /** The table as one thread uses it. */
  class GroupTable {
    const cells: array<int>

    constructor ()
      ensures fresh(cells) && cells[..] == Empty().cells
    {
      cells := new int[MAX_TRACKED](i => 0);
      new;
      assert cells[..] == Empty().cells;
    }

    method Register(pgid: int) returns (slot: Option<nat>)
      modifies cells
      ensures slot == if pgid > 0 then FirstFree(old(cells[..]), 0) else None
      ensures cells[..] == if slot.Some? then old(cells[..])[slot.value := pgid] else old(cells[..])
    {
      if pgid > 0 {
        var i := 0;
        while i < cells.Length
          invariant 0 <= i <= cells.Length && cells[..] == old(cells[..])
          invariant FirstFree(cells[..], 0) == FirstFree(cells[..], i)
        {
          if cells[i] == 0 {
            cells[i] := pgid;
            return Some(i);
          }
          i := i + 1;
        }
      }
      slot := None;
    }

    method Unregister(slot: Option<nat>)
      requires slot.Some? ==> slot.value < cells.Length
      modifies cells
      ensures cells[..] == if slot.Some? then old(cells[..])[slot.value := 0] else old(cells[..])
    {
      if slot.Some? {
        cells[slot.value] := 0;
      }
    }

    method KillAll() returns (killed: seq<int>)
      ensures killed == Positive(cells[..])
    {
      killed := [];
      var i := 0;
      while i < cells.Length
        invariant 0 <= i <= cells.Length && killed == Positive(cells[..i])
      {
        var pgid := cells[i];
        assert cells[..i + 1][..i] == cells[..i];
        if pgid != 0 {
          if pgid > 0 {
            killed := killed + [pgid];
          }
        }
        i := i + 1;
      }
      assert cells[..i] == cells[..];
    }
  }

  lemma {:induction false} PositiveIsEveryLiveId(cells: seq<int>, pgid: int)
    ensures pgid in Positive(cells) <==> pgid > 0 && pgid in cells
  {
    if cells != [] {
      var init := cells[..|cells| - 1];
      PositiveIsEveryLiveId(init, pgid);
      assert cells == init + [cells[|cells| - 1]];
    }
  }

  /** The ids come in the order of their cells, each as often as it stands there. */
  lemma {:induction false} PositiveInOrder(a: seq<int>, b: seq<int>, pgid: int)
    ensures Positive(a + b) == Positive(a) + Positive(b)
    ensures Positive([pgid]) == if pgid > 0 then [pgid] else []
  {
    assert [pgid][..0] == [];
    if b == [] {
      assert a + b == a;
    } else {
      assert (a + b)[..|a + b| - 1] == a + b[..|b| - 1];
      PositiveInOrder(a, b[..|b| - 1], pgid);
    }
  }
}
