/** Which tool results of a session are provably spent, and how the token mass
    of many sessions is booked. */
module FoldDetector {
  import opened Prelude

  /** One tool result: its position in the transcript, the tool, its token mass,
      the arguments of its call and the path it touched, where there are any. */
  datatype ToolResult = ToolResult(idx: nat, tool: string, mass: int, args: Option<string>, path: Option<string>)

  predicate IsRead(tool: string) {
    tool == "read" || tool == "ls"
  }

  predicate IsCommand(tool: string) {
    tool == "grep" || tool == "find" || tool == "bash"
  }

  // An absent text and an empty one both count as nothing.
  predicate Given(text: Option<string>) {
    text.Some? && text.value != ""
  }

  // ---- The quadratic definition

  /** A later result touches the same path. */
  predicate TouchedLater(rs: seq<ToolResult>, r: ToolResult) {
    IsRead(r.tool) && Given(r.path) && exists j :: 0 <= j < |rs| && rs[j].path == r.path && rs[j].idx > r.idx
  }

  /** The same tool runs again later with the same arguments. */
  predicate RerunLater(rs: seq<ToolResult>, r: ToolResult) {
    IsCommand(r.tool) && Given(r.args) &&
    exists j :: 0 <= j < |rs| && rs[j].tool == r.tool && rs[j].args == r.args && rs[j].idx > r.idx
  }

  predicate Spent(rs: seq<ToolResult>, r: ToolResult) {
    TouchedLater(rs, r) || RerunLater(rs, r)
  }

  // ---- The grouped detector

  type Command = (string, string)

  predicate InGroup(r: ToolResult, key: Command) {
    IsCommand(r.tool) && Given(r.args) && key == (r.tool, r.args.value)
  }

  /** Positions at which each path is touched. */
  ghost predicate TouchIndex(touches: map<string, seq<nat>>, rs: seq<ToolResult>) {
    && (forall p :: p in touches ==> p != "")
    && (forall p, x :: p in touches && x in touches[p] ==>
          exists j :: 0 <= j < |rs| && rs[j].path == Some(p) && rs[j].idx == x)
    && (forall j :: 0 <= j < |rs| && Given(rs[j].path) ==>
          rs[j].path.value in touches && rs[j].idx in touches[rs[j].path.value])
  }

  ghost predicate CommandIndex(groups: map<Command, seq<ToolResult>>, rs: seq<ToolResult>) {
    && (forall key, r :: key in groups && r in groups[key] ==> r in rs && InGroup(r, key))
    && (forall key :: key in groups ==> groups[key] != [])
    && (forall r :: r in rs && IsCommand(r.tool) && Given(r.args) ==>
          (r.tool, r.args.value) in groups && r in groups[(r.tool, r.args.value)])
  }

  method IndexTouches(rs: seq<ToolResult>) returns (touches: map<string, seq<nat>>)
    ensures TouchIndex(touches, rs)
  {
    touches := map[];
    for i := 0 to |rs|
      invariant TouchIndex(touches, rs[..i])
    {
      if Given(rs[i].path) {
        var p := rs[i].path.value;
        touches := touches[p := (if p in touches then touches[p] else []) + [rs[i].idx]];
      }
      assert forall j :: 0 <= j < i ==> rs[..i + 1][j] == rs[..i][j];
      assert rs[..i + 1][i] == rs[i];
    }
    assert rs[..|rs|] == rs;
  }

  method IndexCommands(rs: seq<ToolResult>) returns (groups: map<Command, seq<ToolResult>>)
    ensures CommandIndex(groups, rs)
  {
    groups := map[];
    for i := 0 to |rs|
      invariant CommandIndex(groups, rs[..i])
    {
      assert rs[..i + 1] == rs[..i] + [rs[i]];
      if IsCommand(rs[i].tool) && Given(rs[i].args) {
        var key := (rs[i].tool, rs[i].args.value);
        groups := groups[key := (if key in groups then groups[key] else []) + [rs[i]]];
      }
    }
    assert rs[..|rs|] == rs;
  }

  method AnyAfter(xs: seq<nat>, idx: nat) returns (found: bool)
    ensures found <==> exists x :: x in xs && x > idx
  {
    found := false;
    for i := 0 to |xs|
      invariant found <==> exists j :: 0 <= j < i && xs[j] > idx
    {
      found := found || xs[i] > idx;
    }
    if found {
      ghost var j :| 0 <= j < |xs| && xs[j] > idx;
      assert xs[j] in xs;
    }
  }

  method Latest(rs: seq<ToolResult>) returns (latest: nat)
    requires rs != []
    ensures forall r :: r in rs ==> r.idx <= latest
    ensures exists r :: r in rs && r.idx == latest
  {
    latest := rs[0].idx;
    for i := 1 to |rs|
      invariant forall r :: r in rs[..i] ==> r.idx <= latest
      invariant exists r :: r in rs[..i] && r.idx == latest
    {
      assert rs[..i + 1] == rs[..i] + [rs[i]];
      if rs[i].idx > latest {
        latest := rs[i].idx;
      }
    }
    assert rs[..|rs|] == rs;
  }

  /** The detector folds exactly the positions of spent results. */
  method FoldableIndices(rs: seq<ToolResult>) returns (fold: set<nat>)
    ensures fold == set r | r in rs && Spent(rs, r) :: r.idx
  {
    var superseded := SupersededReads(rs);
    var retired := RetiredCommands(rs);
    fold := superseded + retired;
  }

  method SupersededReads(rs: seq<ToolResult>) returns (fold: set<nat>)
    ensures fold == set r | r in rs && TouchedLater(rs, r) :: r.idx
  {
    var touches := IndexTouches(rs);
    fold := {};
    for i := 0 to |rs|
      invariant fold == set r | r in rs[..i] && TouchedLater(rs, r) :: r.idx
    {
      assert rs[..i + 1] == rs[..i] + [rs[i]];
      if IsRead(rs[i].tool) && Given(rs[i].path) {
        var later := AnyAfter(touches[rs[i].path.value], rs[i].idx);
        assert later <==> TouchedLater(rs, rs[i]);
        if later {
          fold := fold + {rs[i].idx};
        }
      }
    }
    assert rs[..|rs|] == rs;
  }

  // Members of a group that something in the group comes after.
  function Outrun(group: seq<ToolResult>): set<nat> {
    set r | r in group && (exists s :: s in group && s.idx > r.idx) :: r.idx
  }

  method RetiredCommands(rs: seq<ToolResult>) returns (fold: set<nat>)
    ensures fold == set r | r in rs && RerunLater(rs, r) :: r.idx
  {
    var groups := IndexCommands(rs);
    fold := {};
    var todo := groups.Keys;
    while todo != {}
      invariant todo <= groups.Keys
      invariant fold == set key, x | key in groups.Keys - todo && x in Outrun(groups[key]) :: x
      decreases todo
    {
      var key :| key in todo;
      var group := groups[key];
      var retired := RetireGroup(group);
      fold := fold + retired;
      todo := todo - {key};
    }
    RetiredByGroup(rs, groups);
  }

  method RetireGroup(group: seq<ToolResult>) returns (fold: set<nat>)
    requires group != []
    ensures fold == Outrun(group)
  {
    fold := {};
    if |group| < 2 {
      return;
    }
    var latest := Latest(group);
    for i := 0 to |group|
      invariant fold == set r | r in group[..i] && r.idx < latest :: r.idx
    {
      assert group[..i + 1] == group[..i] + [group[i]];
      if group[i].idx < latest {
        fold := fold + {group[i].idx};
      }
    }
    assert group[..|group|] == group;
  }

  lemma RetiredByGroup(rs: seq<ToolResult>, groups: map<Command, seq<ToolResult>>)
    requires CommandIndex(groups, rs)
    ensures (set key, x | key in groups.Keys && x in Outrun(groups[key]) :: x) ==
            (set r | r in rs && RerunLater(rs, r) :: r.idx)
  {
    var byGroup := set key, x | key in groups.Keys && x in Outrun(groups[key]) :: x;
    var byPair := set r | r in rs && RerunLater(rs, r) :: r.idx;
    forall x | x in byGroup ensures x in byPair {
      var key :| key in groups && x in Outrun(groups[key]);
      var r, s :| r in groups[key] && s in groups[key] && s.idx > r.idx && r.idx == x;
      assert r in rs && s in rs && InGroup(r, key) && InGroup(s, key);
      assert RerunLater(rs, r);
    }
    forall x | x in byPair ensures x in byGroup {
      var r :| r in rs && RerunLater(rs, r) && r.idx == x;
      var j :| 0 <= j < |rs| && rs[j].tool == r.tool && rs[j].args == r.args && rs[j].idx > r.idx;
      var key := (r.tool, r.args.value);
      assert rs[j] in rs && rs[j] in groups[key] && r in groups[key];
      assert x in Outrun(groups[key]);
    }
  }

  // ---- The newest of each group

  /** Results come in transcript order, as they are collected. */
  predicate Increasing(rs: seq<ToolResult>) {
    forall i, j :: 0 <= i < j < |rs| ==> rs[i].idx < rs[j].idx
  }

  function Folded(rs: seq<ToolResult>): set<nat> {
    set r | r in rs && Spent(rs, r) :: r.idx
  }

  /** A position is folded exactly when the result there is a read or a listing of a
      path that a later result touches, or a search or a shell command that the same
      tool runs again later with the same arguments. */
  lemma FoldedIsSpent(rs: seq<ToolResult>, r: ToolResult)
    requires Increasing(rs) && r in rs
    ensures r.idx in Folded(rs) <==> Spent(rs, r)
    ensures r.idx in Folded(rs) <==>
              || (r.tool in ["read", "ls"] && r.path.Some? && r.path.value != ""
                  && exists q :: q in rs && q.path == r.path && q.idx > r.idx)
              || (r.tool in ["grep", "find", "bash"] && r.args.Some? && r.args.value != ""
                  && exists q :: q in rs && q.tool == r.tool && q.args == r.args && q.idx > r.idx)
  {
    if r.idx in Folded(rs) {
      var q :| q in rs && Spent(rs, q) && q.idx == r.idx;
      assert q == r;
    }
  }

  /** The last result that touches a path is never folded as a read, nor the last
      run of a command with its arguments, so every group keeps its newest. */
  lemma NewestIsKept(rs: seq<ToolResult>, r: ToolResult)
    requires Increasing(rs) && r in rs
    requires IsRead(r.tool) ==> forall q :: q in rs && q.path == r.path ==> q.idx <= r.idx
    requires IsCommand(r.tool) ==> forall q :: q in rs && q.tool == r.tool && q.args == r.args ==> q.idx <= r.idx
    ensures r.idx !in Folded(rs)
  {
    FoldedIsSpent(rs, r);
  }

  // ---- Booking the masses

  datatype Book =
    | All
    | FoldedMass
    | Superseded
    | Retired
    | Decile(d: nat)
    | Older
    | OlderFolded
    | Long
    | LongFolded

  const LONG_SESSION: nat := 40

  /** The tenth of the session, oldest first, that a rank falls into. */
  function DecileOf(rank: nat, n: nat): nat
    requires rank < n
  {
    Min(9, rank * 10 / n)
  }

  // The quotient, with no division left.
  lemma DecileBounds(rank: nat, n: nat)
    requires rank < n
    ensures var q := rank * 10 / n; q < 10 && q * n <= 10 * rank < (q + 1) * n
  {
    var q := rank * 10 / n;
    assert 10 * rank == q * n + 10 * rank % n;
    assert (q + 1) * n == q * n + n;
    BelowProduct(q, 10, n);
  }

  lemma TenthIsUnique(x: nat, n: nat, q: nat, d: nat)
    requires q * n <= x < (q + 1) * n && d * n <= x < (d + 1) * n
    ensures q == d
  {
    BelowProduct(q, d + 1, n);
    BelowProduct(d, q + 1, n);
  }

  /** A decile holds exactly the ranks in its tenth of the session, oldest first;
      the bound at the last decile never has to act. */
  lemma DecileIsTheTenth(rank: nat, n: nat, d: nat)
    requires rank < n
    ensures DecileOf(rank, n) == d <==> d * n <= 10 * rank < (d + 1) * n
    ensures DecileOf(rank, n) == rank * 10 / n < 10
  {
    DecileBounds(rank, n);
    if d * n <= 10 * rank < (d + 1) * n {
      TenthIsUnique(10 * rank, n, DecileOf(rank, n), d);
    }
  }

  lemma BelowProduct(a: nat, b: nat, n: nat)
    ensures a * n < b * n ==> a < b
  {
    if a >= b {
      assert a * n == b * n + (a - b) * n;
    }
  }

  /** The newest quarter is never folded. */
  function Cut(n: nat): nat {
    n * 3 / 4
  }

  /** Does this book take the result at this rank of the session? */
  predicate Takes(book: Book, rs: seq<ToolResult>, rank: nat)
    requires rank < |rs|
  {
    match book
    case All => true
    case FoldedMass => Spent(rs, rs[rank])
    case Superseded => TouchedLater(rs, rs[rank])
    case Retired => RerunLater(rs, rs[rank])
    case Decile(d) => DecileOf(rank, |rs|) == d
    case Older => rank < Cut(|rs|)
    case OlderFolded => rank < Cut(|rs|) && Spent(rs, rs[rank])
    case Long => |rs| >= LONG_SESSION
    case LongFolded => |rs| >= LONG_SESSION && Spent(rs, rs[rank])
  }

  /** The books: everything; what is folded, split by whether it is a read; the
      results older than the newest quarter; and the sessions of forty or more. */
  lemma BooksTakeThese(rs: seq<ToolResult>, rank: nat)
    requires rank < |rs|
    ensures Takes(All, rs, rank)
    ensures Takes(FoldedMass, rs, rank) <==> Takes(Superseded, rs, rank) || Takes(Retired, rs, rank)
    ensures Takes(Superseded, rs, rank) ==> rs[rank].tool in ["read", "ls"]
    ensures Takes(Retired, rs, rank) ==> rs[rank].tool in ["grep", "find", "bash"]
    ensures Takes(Older, rs, rank) <==> 4 * rank + 4 <= 3 * |rs|
    ensures Takes(OlderFolded, rs, rank) <==> Takes(Older, rs, rank) && Takes(FoldedMass, rs, rank)
    ensures Takes(Long, rs, rank) <==> |rs| >= 40
    ensures Takes(LongFolded, rs, rank) <==> Takes(Long, rs, rank) && Takes(FoldedMass, rs, rank)
  {
  }

  /** What a book has after the first n results of a session. */
  function Booked(book: Book, rs: seq<ToolResult>, n: nat): int
    requires n <= |rs|
  {
    if n == 0 then 0
    else Booked(book, rs, n - 1) + if Takes(book, rs, n - 1) then rs[n - 1].mass else 0
  }

  /** What a book has after a list of sessions. */
  function BookedAll(book: Book, sessions: seq<seq<ToolResult>>): int {
    if sessions == [] then 0
    else
      var last := sessions[|sessions| - 1];
      BookedAll(book, sessions[..|sessions| - 1]) + Booked(book, last, |last|)
  }

  datatype Tally = Tally(
    grandTotal: int,
    grandFold: int,
    superseded: int,
    retired: int,
    deciles: seq<int>,
    residualTotal: int,
    residualFold: int,
    longTotal: int,
    longFold: int
  )

  predicate TallyOf(t: Tally, sessions: seq<seq<ToolResult>>) {
    && t.grandTotal == BookedAll(All, sessions)
    && t.grandFold == BookedAll(FoldedMass, sessions)
    && t.superseded == BookedAll(Superseded, sessions)
    && t.retired == BookedAll(Retired, sessions)
    && |t.deciles| == 10
    && (forall d :: 0 <= d < 10 ==> t.deciles[d] == BookedAll(Decile(d), sessions))
    && t.residualTotal == BookedAll(Older, sessions)
    && t.residualFold == BookedAll(OlderFolded, sessions)
    && t.longTotal == BookedAll(Long, sessions)
    && t.longFold == BookedAll(LongFolded, sessions)
  }

  /** Which book each counter is. */
  lemma CountersAreTheirBooks(t: Tally, sessions: seq<seq<ToolResult>>, d: nat)
    requires TallyOf(t, sessions) && d < 10
    ensures t.grandTotal == BookedAll(All, sessions) && t.grandFold == BookedAll(FoldedMass, sessions)
    ensures t.superseded == BookedAll(Superseded, sessions) && t.retired == BookedAll(Retired, sessions)
    ensures |t.deciles| == 10 && t.deciles[d] == BookedAll(Decile(d), sessions)
    ensures t.residualTotal == BookedAll(Older, sessions) && t.residualFold == BookedAll(OlderFolded, sessions)
    ensures t.longTotal == BookedAll(Long, sessions) && t.longFold == BookedAll(LongFolded, sessions)
  {
  }

  /** The accumulation over all sessions: every counter holds its own book. */
  method Measure(sessions: seq<seq<ToolResult>>) returns (t: Tally)
    requires forall rs :: rs in sessions ==> Increasing(rs)
    ensures TallyOf(t, sessions)
  {
    t := Tally(0, 0, 0, 0, seq(10, d => 0), 0, 0, 0, 0);
    for k := 0 to |sessions|
      invariant TallyOf(t, sessions[..k])
    {
      var rs := sessions[k];
      assert sessions[..k + 1][..k] == sessions[..k];
      if rs != [] {
        var fold := FoldableIndices(rs);
        var total := AddTotal(rs);
        var folds := AddFolds(rs, fold);
        var deciles := AddDeciles(rs, t.deciles);
        var older := AddOlder(rs, fold);
        t := Tally(t.grandTotal + total,
                   t.grandFold + folds.0, t.superseded + folds.1, t.retired + folds.2,
                   deciles,
                   t.residualTotal + older.0, t.residualFold + older.1,
                   t.longTotal, t.longFold);
        LongBooks(rs);
        if |rs| >= LONG_SESSION {
          t := t.(longTotal := t.longTotal + total, longFold := t.longFold + folds.0);
        }
      }
    }
    assert sessions[..|sessions|] == sessions;
  }

  method AddTotal(rs: seq<ToolResult>) returns (total: int)
    ensures total == Booked(All, rs, |rs|)
  {
    total := 0;
    for i := 0 to |rs|
      invariant total == Booked(All, rs, i)
    {
      total := total + rs[i].mass;
    }
  }

  // Folded mass, and its split by the class of the folded result.
  method AddFolds(rs: seq<ToolResult>, fold: set<nat>) returns (sums: (int, int, int))
    requires Increasing(rs) && fold == Folded(rs)
    ensures sums == (Booked(FoldedMass, rs, |rs|), Booked(Superseded, rs, |rs|), Booked(Retired, rs, |rs|))
  {
    var grandFold, superseded, retired := 0, 0, 0;
    for i := 0 to |rs|
      invariant grandFold == Booked(FoldedMass, rs, i)
      invariant superseded == Booked(Superseded, rs, i)
      invariant retired == Booked(Retired, rs, i)
    {
      FoldedIsSpent(rs, rs[i]);
      if rs[i].idx in fold {
        grandFold := grandFold + rs[i].mass;
        if IsRead(rs[i].tool) {
          superseded := superseded + rs[i].mass;
        } else {
          retired := retired + rs[i].mass;
        }
      }
    }
    sums := (grandFold, superseded, retired);
  }

  method AddDeciles(rs: seq<ToolResult>, before: seq<int>) returns (deciles: seq<int>)
    requires |before| == 10
    ensures |deciles| == 10
    ensures forall d :: 0 <= d < 10 ==> deciles[d] == before[d] + Booked(Decile(d), rs, |rs|)
  {
    deciles := before;
    for i := 0 to |rs|
      invariant |deciles| == 10
      invariant forall d :: 0 <= d < 10 ==> deciles[d] == before[d] + Booked(Decile(d), rs, i)
    {
      var d := Min(9, i * 10 / |rs|);
      deciles := deciles[d := deciles[d] + rs[i].mass];
    }
  }

  method AddOlder(rs: seq<ToolResult>, fold: set<nat>) returns (sums: (int, int))
    requires Increasing(rs) && fold == Folded(rs)
    ensures sums == (Booked(Older, rs, |rs|), Booked(OlderFolded, rs, |rs|))
  {
    var cut := |rs| * 3 / 4;
    var total, folded := 0, 0;
    for i := 0 to |rs|
      invariant total == Booked(Older, rs, i)
      invariant folded == Booked(OlderFolded, rs, i)
    {
      FoldedIsSpent(rs, rs[i]);
      if i < cut {
        total := total + rs[i].mass;
        if rs[i].idx in fold {
          folded := folded + rs[i].mass;
        }
      }
    }
    sums := (total, folded);
  }

  lemma {:induction false} LongBooksUpTo(rs: seq<ToolResult>, n: nat)
    requires n <= |rs|
    ensures Booked(Long, rs, n) == if |rs| >= LONG_SESSION then Booked(All, rs, n) else 0
    ensures Booked(LongFolded, rs, n) == if |rs| >= LONG_SESSION then Booked(FoldedMass, rs, n) else 0
  {
    if n > 0 {
      LongBooksUpTo(rs, n - 1);
    }
  }

  lemma LongBooks(rs: seq<ToolResult>)
    ensures Booked(Long, rs, |rs|) == if |rs| >= LONG_SESSION then Booked(All, rs, |rs|) else 0
    ensures Booked(LongFolded, rs, |rs|) == if |rs| >= LONG_SESSION then Booked(FoldedMass, rs, |rs|) else 0
  {
    LongBooksUpTo(rs, |rs|);
  }

  // ---- Conservation

  lemma {:induction false} ClassesSplitTheFold(rs: seq<ToolResult>, n: nat)
    requires n <= |rs|
    ensures Booked(Superseded, rs, n) + Booked(Retired, rs, n) == Booked(FoldedMass, rs, n)
  {
    if n > 0 {
      ClassesSplitTheFold(rs, n - 1);
    }
  }

  /** What the ten deciles of a session hold together. */
  function DecileSum(rs: seq<ToolResult>, n: nat, d: nat): int
    requires n <= |rs|
  {
    if d == 0 then 0 else DecileSum(rs, n, d - 1) + Booked(Decile(d - 1), rs, n)
  }

  lemma {:induction false} NextResultIsInOneDecile(rs: seq<ToolResult>, n: nat, d: nat)
    requires 0 < n <= |rs|
    ensures DecileSum(rs, n, d) == DecileSum(rs, n - 1, d) + if DecileOf(n - 1, |rs|) < d then rs[n - 1].mass else 0
  {
    if d > 0 {
      NextResultIsInOneDecile(rs, n, d - 1);
    }
  }

  lemma {:induction false} DecilesSplitTheSession(rs: seq<ToolResult>, n: nat)
    requires n <= |rs|
    ensures DecileSum(rs, n, 10) == Booked(All, rs, n)
  {
    if n == 0 {
      NothingInNoResults(rs, 10);
    } else {
      NextResultIsInOneDecile(rs, n, 10);
      DecilesSplitTheSession(rs, n - 1);
    }
  }

  lemma {:induction false} NothingInNoResults(rs: seq<ToolResult>, d: nat)
    ensures DecileSum(rs, 0, d) == 0
  {
    if d > 0 {
      NothingInNoResults(rs, d - 1);
    }
  }

  function Sum(xs: seq<int>): int {
    if xs == [] then 0 else Sum(xs[..|xs| - 1]) + xs[|xs| - 1]
  }

  /** A book holds the masses of the results it takes, and nothing else. */
  lemma {:induction false} BooksAreSums(book: Book, rs: seq<ToolResult>, n: nat)
    requires n <= |rs|
    ensures Booked(book, rs, n) == Sum(seq(n, i requires 0 <= i < n => if Takes(book, rs, i) then rs[i].mass else 0))
  {
    if n > 0 {
      BooksAreSums(book, rs, n - 1);
      var all := seq(n, i requires 0 <= i < n => if Takes(book, rs, i) then rs[i].mass else 0);
      assert all[..n - 1] == seq(n - 1, i requires 0 <= i < n - 1 => if Takes(book, rs, i) then rs[i].mass else 0);
    }
  }

  function DecileBooks(sessions: seq<seq<ToolResult>>, d: nat): seq<int> {
    seq(d, i requires 0 <= i < d => BookedAll(Decile(i), sessions))
  }

  lemma {:induction false} DecileBooksGrow(sessions: seq<seq<ToolResult>>, rs: seq<ToolResult>, d: nat)
    ensures Sum(DecileBooks(sessions + [rs], d)) == Sum(DecileBooks(sessions, d)) + DecileSum(rs, |rs|, d)
  {
    if d > 0 {
      DecileBooksGrow(sessions, rs, d - 1);
      var more := sessions + [rs];
      assert more[..|more| - 1] == sessions;
      assert DecileBooks(more, d)[..d - 1] == DecileBooks(more, d - 1);
      assert DecileBooks(sessions, d)[..d - 1] == DecileBooks(sessions, d - 1);
    }
  }

  lemma {:induction false} BooksBalance(sessions: seq<seq<ToolResult>>)
    ensures BookedAll(Superseded, sessions) + BookedAll(Retired, sessions) == BookedAll(FoldedMass, sessions)
    ensures Sum(DecileBooks(sessions, 10)) == BookedAll(All, sessions)
  {
    if sessions == [] {
      EmptyBooks(10);
    } else {
      var init, last := sessions[..|sessions| - 1], sessions[|sessions| - 1];
      assert sessions == init + [last];
      BooksBalance(init);
      ClassesSplitTheFold(last, |last|);
      DecileBooksGrow(init, last, 10);
      DecilesSplitTheSession(last, |last|);
    }
  }

  lemma {:induction false} EmptyBooks(d: nat)
    ensures Sum(DecileBooks([], d)) == 0
  {
    if d > 0 {
      EmptyBooks(d - 1);
      assert DecileBooks([], d)[..d - 1] == DecileBooks([], d - 1);
    }
  }

  /** For every list of sessions the reported masses are conserved: superseded and
      retired mass make up the folded mass, and the deciles make up everything. */
  lemma MassesAreConserved(t: Tally, sessions: seq<seq<ToolResult>>)
    requires TallyOf(t, sessions)
    ensures t.superseded + t.retired == t.grandFold
    ensures Sum(t.deciles) == t.grandTotal
  {
    BooksBalance(sessions);
    assert t.deciles == DecileBooks(sessions, 10);
  }
}
