/** The production checker: it reads the plan and the log of a simulation and gives a verdict.
    A list index that Python would refuse ends the program without a verdict. */
module Checker {
  import opened Common

  const MAX_TASKS: nat := 5
  const PRODUCTS: nat := 6
  const POSTS: nat := 8

  /** Python's list indexing: a negative index counts from the end. */
  function Index(length: nat, i: int): Option<nat> {
    if 0 <= i < length then Some(i)
    else if i < 0 && 0 <= i + length then Some(i + length)
    else None
  }

  /** The position of a product in the tables of six, written `list[P-1]` in the program. */
  function Slot(product: nat): Option<nat> { Index(PRODUCTS, product - 1) }

  // ----- the plan -----

  /** A line of the plan: product : tasks : durations : count. */
  datatype PlanLine = PlanLine(product: int, tasks: seq<int>, durations: seq<real>, count: int)

  predicate LineOk(l: PlanLine) {
    && 1 <= l.product <= PRODUCTS
    && |l.tasks| == |l.durations| <= MAX_TASKS
    && forall i | 0 <= i < |l.tasks| :: 1 <= l.tasks[i] <= POSTS
  }

  /** The count the last line of the product gives, 0 without a line. */
  function PlannedCount(lines: seq<PlanLine>, p: int): int {
    if lines == [] then 0
    else
      var l := lines[|lines| - 1];
      if l.product == p then l.count else PlannedCount(lines[..|lines| - 1], p)
  }

  /** Entry i of the row a product must leave with: its number, then its tasks, then zeros. */
  function PlannedEntry(lines: seq<PlanLine>, p: int, i: nat): int {
    if lines == [] then 0
    else
      var l := lines[|lines| - 1];
      if l.product == p && i == 0 then p
      else if l.product == p && i <= |l.tasks| then l.tasks[i - 1]
      else PlannedEntry(lines[..|lines| - 1], p, i)
  }

  /** A row of the table after its number and the first n tasks of a line are written. */
  function Overwritten(row: seq<int>, l: PlanLine, n: nat): (r: seq<int>)
    requires n <= |l.tasks| && |row| == MAX_TASKS + 1
    ensures |r| == |row|
  {
    seq(|row|, k requires 0 <= k < |row| =>
      if k == 0 then l.product else if k <= n then l.tasks[k - 1] else row[k])
  }

  function PlannedRow(lines: seq<PlanLine>, p: int): (row: seq<int>)
    ensures |row| == MAX_TASKS + 1
  {
    seq(MAX_TASKS + 1, i requires 0 <= i <= MAX_TASKS => PlannedEntry(lines, p, i))
  }

  /** A duration, planned or logged, of a task of a product. */
  datatype Duration = Duration(product: int, post: int, seconds: real)

  /** The durations the lines give, in order. */
  function LineDurations(l: PlanLine, n: nat): seq<Duration>
    requires n <= |l.tasks| && n <= |l.durations|
  {
    if n == 0 then []
    else LineDurations(l, n - 1) + [Duration(l.product, l.tasks[n - 1], l.durations[n - 1])]
  }

  function PlanDurations(lines: seq<PlanLine>): seq<Duration>
    requires forall i | 0 <= i < |lines| :: LineOk(lines[i])
  {
    if lines == [] then []
    else
      var l := lines[|lines| - 1];
      assert LineOk(l);
      PlanDurations(lines[..|lines| - 1]) + LineDurations(l, |l.tasks|)
  }

  /** The last duration listed for a product slot and a post slot, 0 if there is none. */
  function LastDuration(ds: seq<Duration>, i: nat, j: nat): real {
    if ds == [] then 0.0
    else
      var d := ds[|ds| - 1];
      if Index(PRODUCTS, d.product - 1) == Some(i) && Index(POSTS, d.post - 1) == Some(j) then d.seconds
      else LastDuration(ds[..|ds| - 1], i, j)
  }

  predicate DurationsInRange(ds: seq<Duration>) {
    forall k | 0 <= k < |ds| :: Index(PRODUCTS, ds[k].product - 1).Some? && Index(POSTS, ds[k].post - 1).Some?
  }

  // ----- the log -----

  /** A line of the log. The first digit of a code is its number, the second its kind: 4 for a
      product, 2 or 3 for a task. Of the tasks of an exit only the numbers count. */
  datatype Event =
    | Fault
    | Tempo(duration: Duration)
    | NewProduct(product: nat, kind: int, time: real)
    | Exit(product: nat, kind: int, tasks: seq<int>, time: real)
    | Other

  datatype Entry = Entry(product: nat, time: real)

  /** The appearances of products, in order. */
  function Entered(log: seq<Event>): seq<Entry> {
    if log == [] then []
    else
      var e := log[|log| - 1];
      Entered(log[..|log| - 1]) + if e.NewProduct? then [Entry(e.product, e.time)] else []
  }

  function EntryCount(es: seq<Entry>, p: nat): nat {
    if es == [] then 0
    else EntryCount(es[..|es| - 1], p) + if es[|es| - 1].product == p then 1 else 0
  }

  /** The appearances counted in a slot of the tables of six. */
  function NewCount(log: seq<Event>, i: nat): nat {
    if log == [] then 0
    else
      var e := log[|log| - 1];
      NewCount(log[..|log| - 1], i) + if e.NewProduct? && Slot(e.product) == Some(i) then 1 else 0
  }

  function ExitCount(log: seq<Event>, p: nat): nat {
    if log == [] then 0
    else
      var e := log[|log| - 1];
      ExitCount(log[..|log| - 1], p) + if e.Exit? && e.product == p then 1 else 0
  }

  /** The sum of the times at which a product left. */
  function ExitTimes(log: seq<Event>, p: nat): real {
    if log == [] then 0.0
    else
      var e := log[|log| - 1];
      ExitTimes(log[..|log| - 1], p) + if e.Exit? && e.product == p then e.time else 0.0
  }

  /** The sum of the first k times at which a product appeared. */
  function EntryTimes(es: seq<Entry>, p: nat, k: nat): real {
    if es == [] then 0.0
    else
      var e, before := es[|es| - 1], es[..|es| - 1];
      EntryTimes(before, p, k) + if e.product == p && EntryCount(before, p) < k then e.time else 0.0
  }

  /** The tasks read for empty evacuations since the last product left: the program only clears
      its list of tasks when a product leaves. */
  function Pending(log: seq<Event>): seq<int> {
    if log == [] then []
    else
      var e := log[|log| - 1];
      if !e.Exit? then Pending(log[..|log| - 1])
      else if e.product == 0 then Pending(log[..|log| - 1]) + e.tasks
      else []
  }

  function Durations(log: seq<Event>): seq<Duration> {
    if log == [] then []
    else
      var e := log[|log| - 1];
      Durations(log[..|log| - 1]) + if e.Tempo? then [e.duration] else []
  }

  function Padded(tasks: seq<int>): (row: seq<int>)
    ensures |row| == MAX_TASKS
  {
    seq(MAX_TASKS, i requires 0 <= i < MAX_TASKS => if i < |tasks| then tasks[i] else 0)
  }

  /** The row a product leaves with after the given log. */
  function LeavingRow(before: seq<Event>, e: Event): seq<int>
    requires e.Exit?
  {
    [e.product] + Padded(Pending(before) + e.tasks)
  }

  /** No index is refused when e is read after the given log. */
  predicate Readable(before: seq<Event>, e: Event) {
    match e
    case NewProduct(p, _, _) => Slot(p).Some?
    case Exit(p, _, tasks, _) =>
      && |Pending(before)| + |tasks| <= MAX_TASKS
      && (p != 0 ==> p <= PRODUCTS && ExitCount(before, p) < EntryCount(Entered(before), p))
    case _ => true
  }

  /** The reading loop gets to the end of the log. */
  predicate Runs(log: seq<Event>) {
    log == [] || (Runs(log[..|log| - 1]) && Readable(log[..|log| - 1], log[|log| - 1]))
  }

  /** Reading e after the given log leaves the verdict alone. */
  predicate Harmless(counts: seq<int>, rows: seq<seq<int>>, before: seq<Event>, e: Event)
    requires |counts| == |rows| == PRODUCTS
  {
    match e
    case Fault => false
    case NewProduct(p, kind, _) => Slot(p).Some? && (kind == 4 || counts[Slot(p).value] == 0)
    case Exit(p, kind, _, _) =>
      if p == 0 then counts[PRODUCTS - 1] != 0
      else if p > PRODUCTS then false
      else if counts[p - 1] != 0 && ExitCount(before, p) + 1 <= counts[p - 1] then
        kind == 4 && LeavingRow(before, e) == rows[p - 1]
      else true
    case _ => true
  }

  predicate Clean(counts: seq<int>, rows: seq<seq<int>>, log: seq<Event>)
    requires |counts| == |rows| == PRODUCTS
  {
    log == [] ||
    (Clean(counts, rows, log[..|log| - 1]) && Harmless(counts, rows, log[..|log| - 1], log[|log| - 1]))
  }

  /** Row k of the table of appearances once the exits so far have struck out their lines. */
  function Struck(log: seq<Event>, k: nat): Entry
    requires k < |Entered(log)|
  {
    var es := Entered(log);
    var e := es[k];
    if e.product != 0 && EntryCount(es[..k], e.product) < ExitCount(log, e.product) then e.(product := 0) else e
  }

  /** How one more line changes what the log amounts to. */
  lemma OneLineMore(log: seq<Event>, e: Event)
    ensures var all := log + [e];
      && Entered(all) == (if e.NewProduct? then Entered(log) + [Entry(e.product, e.time)] else Entered(log))
      && (forall i: nat :: NewCount(all, i) ==
            NewCount(log, i) + if e.NewProduct? && Slot(e.product) == Some(i) then 1 else 0)
      && (forall p: nat :: ExitCount(all, p) == ExitCount(log, p) + if e.Exit? && e.product == p then 1 else 0)
      && (forall p: nat :: ExitTimes(all, p) ==
            ExitTimes(log, p) + if e.Exit? && e.product == p then e.time else 0.0)
      && Pending(all) == (if !e.Exit? then Pending(log) else if e.product == 0 then Pending(log) + e.tasks else [])
      && Durations(all) == (if e.Tempo? then Durations(log) + [e.duration] else Durations(log))
      && (Runs(all) <==> Runs(log) && Readable(log, e))
      && (forall counts: seq<int>, rows: seq<seq<int>> | |counts| == |rows| == PRODUCTS ::
            Clean(counts, rows, all) <==> Clean(counts, rows, log) && Harmless(counts, rows, log, e))
  {
    var all := log + [e];
    assert all[..|log|] == log && all[|log|] == e;
  }

  ghost predicate IsTimeTable(table: seq<seq<real>>, ds: seq<Duration>) {
    && IsTable(table)
    && forall i, j | 0 <= i < PRODUCTS && 0 <= j < POSTS :: table[i][j] == LastDuration(ds, i, j)
  }

  /** The table of appearances, struck out as far as products have left. */
  ghost predicate EntriesOk(log: seq<Event>, entries: seq<Entry>) {
    |entries| == |Entered(log)| && forall k | 0 <= k < |entries| :: entries[k] == Struck(log, k)
  }

  /** The counters, and the time the products that left have spent inside: their times of leaving
      less the times of as many appearances, oldest first. */
  ghost predicate SumsOk(log: seq<Event>, news: seq<int>, exits: seq<int>, stays: seq<real>) {
    && |exits| == |news| == |stays| == PRODUCTS
    && (forall i | 0 <= i < PRODUCTS :: news[i] == NewCount(log, i))
    && (forall i | 0 <= i < PRODUCTS :: exits[i] == ExitCount(log, i + 1))
    && (forall i | 0 <= i < PRODUCTS :: stays[i] ==
          ExitTimes(log, i + 1) - EntryTimes(Entered(log), i + 1, ExitCount(log, i + 1)))
  }

  // ----- the program -----

  /** How one more line changes what is planned. */
  lemma {:induction false} PlanGrows(lines: seq<PlanLine>, l: PlanLine)
    ensures forall p: int :: PlannedCount(lines + [l], p) == if l.product == p then l.count else PlannedCount(lines, p)
    ensures forall p: int | p != l.product :: PlannedRow(lines + [l], p) == PlannedRow(lines, p)
    ensures |l.tasks| <= MAX_TASKS ==>
      PlannedRow(lines + [l], l.product) == Overwritten(PlannedRow(lines, l.product), l, |l.tasks|)
    ensures PlanOk(lines + [l]) <==> PlanOk(lines) && LineOk(l)
    ensures PlanOk(lines + [l]) ==> PlanDurations(lines + [l]) == PlanDurations(lines) + LineDurations(l, |l.tasks|)
  {
    hide PlannedEntry, LineOk;
    var all := lines + [l];
    assert all[..|all| - 1] == lines && all[|lines|] == l && forall k | 0 <= k < |lines| :: all[k] == lines[k];
    forall p: int | p != l.product ensures PlannedRow(all, p) == PlannedRow(lines, p) {
      OtherRowStays(lines, l, p);
    }
    if |l.tasks| <= MAX_TASKS { RowIsOverwritten(lines, l); }
    hide PlannedRow, Overwritten;
  }

  lemma {:induction false} OtherRowStays(lines: seq<PlanLine>, l: PlanLine, p: int)
    requires p != l.product
    ensures PlannedRow(lines + [l], p) == PlannedRow(lines, p)
  {
    assert (lines + [l])[..|lines|] == lines;
  }

  lemma {:induction false} RowIsOverwritten(lines: seq<PlanLine>, l: PlanLine)
    requires |l.tasks| <= MAX_TASKS
    ensures PlannedRow(lines + [l], l.product) == Overwritten(PlannedRow(lines, l.product), l, |l.tasks|)
  {
    assert (lines + [l])[..|lines|] == lines;
  }

  datatype Verdict = Crashed | ConfigError | Verdict(ok: bool, means: seq<real>)

  class Checker {
    var test: int
    var configError: int
    // the plan
    var counts: seq<int>                // nb_produit
    var rows: seq<seq<int>>             // production
    var times: seq<seq<real>>           // temps
    var planDurations: seq<Duration>    // verif_config
    // the log
    var exits: seq<int>                 // nb_produit_log
    var news: seq<int>                  // nb_produit_new
    var entries: seq<Entry>             // produit_entree
    var stays: seq<real>                // produit_duree
    var tasks: seq<int>                 // D
    var taskList: seq<int>              // D_list
    var logDurations: seq<Duration>     // verif_config_log
    var logTimes: seq<seq<real>>        // temps_log

    constructor ()
      ensures PlanRead([])
      ensures test == 1 && configError == 0 && planDurations == []
      ensures counts == seq(PRODUCTS, _ => 0)
      ensures rows == seq(PRODUCTS, _ => seq(MAX_TASKS + 1, _ => 0))
      ensures times == logTimes == seq(PRODUCTS, _ => seq(POSTS, _ => 0.0))
      ensures exits == news == seq(PRODUCTS, _ => 0) && stays == seq(PRODUCTS, _ => 0.0)
      ensures entries == [] && tasks == seq(MAX_TASKS, _ => 0) && taskList == [] && logDurations == []
    {
      test, configError := 1, 0;
      counts, rows := seq(PRODUCTS, _ => 0), seq(PRODUCTS, _ => seq(MAX_TASKS + 1, _ => 0));
      times, logTimes := seq(PRODUCTS, _ => seq(POSTS, _ => 0.0)), seq(PRODUCTS, _ => seq(POSTS, _ => 0.0));
      exits, news, stays := seq(PRODUCTS, _ => 0), seq(PRODUCTS, _ => 0), seq(PRODUCTS, _ => 0.0);
      planDurations, logDurations, entries, taskList := [], [], [], [];
      tasks := seq(MAX_TASKS, _ => 0);
    }

    ghost predicate Tables()
      reads this
    {
      && |counts| == |rows| == PRODUCTS
      && forall p | 0 <= p < PRODUCTS :: |rows[p]| == MAX_TASKS + 1
    }

    // 1. Reading the plan.

    /** The tables hold what the lines plan, or an error has been noted. */
    ghost predicate PlanRead(lines: seq<PlanLine>)
      reads this
    {
      && Tables() && (configError == 0 || configError == 1)
      && (configError == 0 <==> forall k | 0 <= k < |lines| :: LineOk(lines[k]))
      && (configError == 0 ==>
            && (forall p | 0 <= p < PRODUCTS :: counts[p] == PlannedCount(lines, p + 1))
            && (forall p | 0 <= p < PRODUCTS :: rows[p] == PlannedRow(lines, p + 1))
            && planDurations == PlanDurations(lines))
    }

    /** Reads one line; stop is set when the product number ends the reading. */
    method ReadPlanLine(l: PlanLine, ghost lines: seq<PlanLine>) returns (stop: bool)
      requires PlanRead(lines)
      modifies this`configError, this`counts, this`rows, this`planDurations
      ensures stop ==> Tables() && configError == 1 && !LineOk(l)
      ensures !stop ==> PlanRead(lines + [l])
    {
      ghost var planned := configError == 0;
      ghost var all := lines + [l];
      assert all[|lines|] == l && forall k | 0 <= k < |lines| :: all[k] == lines[k];
      PlanGrows(lines, l);
      hide PlannedCount, PlannedRow, PlanDurations, LineDurations, Overwritten;
      if l.product < 1 || l.product > PRODUCTS {
        configError := 1;
        return true;
      }
      CheckTasks(l);
      if |l.tasks| > MAX_TASKS { configError := 1; }
      if configError == 0 {
        WriteRow(l);
      }
      if |l.durations| > MAX_TASKS { configError := 1; }
      counts := counts[l.product - 1 := l.count];
      if |l.tasks| != |l.durations| { configError := 1; }
      if configError == 0 { RecordDurations(l); }
      return false;
    }

    method CheckTasks(l: PlanLine)
      requires configError == 0 || configError == 1
      modifies `configError
      ensures configError == 0 || configError == 1
      ensures configError == 0 <==>
        old(configError) == 0 && forall k | 0 <= k < |l.tasks| :: 1 <= l.tasks[k] <= POSTS
    {
      for i := 0 to |l.tasks|
        invariant configError == 0 || configError == 1
        invariant configError == 0 <==>
          old(configError) == 0 && forall k | 0 <= k < i :: 1 <= l.tasks[k] <= POSTS
      {
        if l.tasks[i] < 1 || l.tasks[i] > POSTS { configError := 1; }
      }
    }

    method RecordDurations(l: PlanLine)
      requires |l.tasks| == |l.durations|
      modifies `planDurations
      ensures planDurations == old(planDurations) + LineDurations(l, |l.tasks|)
    {
      for i := 0 to |l.tasks|
        invariant planDurations == old(planDurations) + LineDurations(l, i)
      {
        planDurations := planDurations + [Duration(l.product, l.tasks[i], l.durations[i])];
      }
    }

    /** The tasks overwrite the beginning of the product's row. */
    method WriteRow(l: PlanLine)
      requires Tables() && 1 <= l.product <= PRODUCTS && |l.tasks| <= MAX_TASKS
      modifies `rows
      ensures Tables()
      ensures forall q | 0 <= q < PRODUCTS && q != l.product - 1 :: rows[q] == old(rows)[q]
      ensures rows[l.product - 1] == Overwritten(old(rows)[l.product - 1], l, |l.tasks|)
    {
      var p := l.product - 1;
      rows := rows[p := rows[p][0 := l.product]];
      for i := 0 to |l.tasks|
        invariant Tables()
        invariant forall q | 0 <= q < PRODUCTS && q != p :: rows[q] == old(rows)[q]
        invariant rows[p] == Overwritten(old(rows)[p], l, i)
      {
        rows := rows[p := rows[p][i + 1 := l.tasks[i]]];
      }
    }

    /** Reads the lines up to one with an impossible product number. */
    method ReadPlan(lines: seq<PlanLine>)
      requires PlanRead([])
      modifies `configError, `counts, `rows, `planDurations
      ensures Tables() && (configError == 0 || configError == 1)
      ensures configError == 0 <==> forall k | 0 <= k < |lines| :: LineOk(lines[k])
      ensures configError == 0 ==> PlanRead(lines)
    {
      for k := 0 to |lines|
        invariant PlanRead(lines[..k])
      {
        assert lines[..k + 1] == lines[..k] + [lines[k]];
        var stop := ReadPlanLine(lines[k], lines[..k]);
        if stop { return; }
      }
      assert lines[..|lines|] == lines;
    }

    /** Writes a list of durations to a table; ok is false when an index is refused. */
    method FillTimes(ds: seq<Duration>) returns (ok: bool, table: seq<seq<real>>)
      ensures ok <==> DurationsInRange(ds)
      ensures ok ==> IsTimeTable(table, ds)
    {
      table := seq(PRODUCTS, _ => seq(POSTS, _ => 0.0));
      for k := 0 to |ds|
        invariant DurationsInRange(ds[..k])
        invariant |table| == PRODUCTS && forall i | 0 <= i < PRODUCTS :: |table[i]| == POSTS
        invariant forall i, j | 0 <= i < PRODUCTS && 0 <= j < POSTS :: table[i][j] == LastDuration(ds[..k], i, j)
      {
        assert ds[..k + 1][..k] == ds[..k];
        var i, j := Index(PRODUCTS, ds[k].product - 1), Index(POSTS, ds[k].post - 1);
        if i == None || j == None { return false, table; }
        table := table[i.value := table[i.value][j.value := ds[k].seconds]];
      }
      assert ds[..|ds|] == ds;
      return true, table;
    }

    // 2. Reading the log.

    /** The fields hold what has been read of the log, and test says whether it is clean. */
    ghost predicate LogRead(log: seq<Event>)
      reads this
    {
      CountsRead(log) && taskList == Pending(log) && |taskList| <= MAX_TASKS && tasks == Padded(taskList)
    }

    ghost predicate CountsRead(log: seq<Event>)
      reads this
    {
      && Tables() && Runs(log)
      && (test == 0 || test == 1) && (test == 1 <==> Clean(counts, rows, log))
      && SumsOk(log, news, exits, stays)
      && EntriesOk(log, entries)
      && logDurations == Durations(log)
    }

    method OnNewProduct(e: Event, ghost log: seq<Event>) returns (crash: bool)
      requires e.NewProduct? && LogRead(log)
      modifies `news, `entries, `test
      ensures crash <==> !Readable(log, e)
      ensures !crash ==> LogRead(log + [e])
    {
      hide Entered, NewCount, ExitCount, ExitTimes, Pending, Durations, Runs, Clean, Struck, EntryCount;
      OneLineMore(log, e);
      var slot := Slot(e.product);
      if slot == None { return true; }
      var i := slot.value;
      news := news[i := news[i] + 1];
      entries := entries + [Entry(e.product, e.time)];
      if e.kind != 4 && counts[i] != 0 { test := 0; }
      NewEntryIsNotStruck(log, e, old(entries));
      NewProductKeepsSums(log, e, old(news), exits, stays);
      hide SumsOk;
      return false;
    }

    /** Reads the tasks of an exit behind those still in the list. */
    method ReadTasks(read: seq<int>) returns (crash: bool)
      requires |taskList| <= MAX_TASKS && tasks == Padded(taskList)
      modifies `taskList, `tasks
      ensures crash <==> |old(taskList)| + |read| > MAX_TASKS
      ensures !crash ==> taskList == old(taskList) + read && tasks == Padded(taskList)
    {
      taskList := taskList + read;
      ghost var before := tasks;
      for i := 0 to |taskList|
        invariant taskList == old(taskList) + read && |tasks| == MAX_TASKS && i <= MAX_TASKS
        invariant forall k | 0 <= k < MAX_TASKS :: tasks[k] == if k < i then taskList[k] else before[k]
      {
        if i >= |tasks| { return true; }
        tasks := tasks[i := taskList[i]];
      }
      return |taskList| > MAX_TASKS;
    }

    /** Strikes out the oldest appearance of product p that has not left yet. */
    method StrikeEntry(p: nat, time: real, ghost log: seq<Event>) returns (crash: bool, k: nat)
      requires 1 <= p <= PRODUCTS && |stays| == PRODUCTS
      requires EntriesOk(log, entries)
      modifies `entries, `stays
      ensures crash <==> ExitCount(log, p) >= EntryCount(Entered(log), p)
      ensures !crash ==>
        && k < |old(entries)| && IsEntry(Entered(log), k, p, ExitCount(log, p))
        && entries == old(entries)[k := old(entries)[k].(product := 0)]
        && stays == old(stays)[p - 1 := old(stays)[p - 1] + (time - Entered(log)[k].time)]
    {
      hide ExitCount, Struck, Entered;
      k := 0;
      while true
        invariant k <= |entries| && unchanged(`entries, `stays)
        invariant EntryCount(Entered(log)[..k], p) <= ExitCount(log, p)
        decreases |entries| - k
      {
        if k >= |entries| {
          assert Entered(log)[..k] == Entered(log);
          return true, k;
        }
        StruckOrNext(log, k, p);
        assert entries[k] == Struck(log, k);
        if entries[k].product == p {
          stays := stays[p - 1 := stays[p - 1] + (time - entries[k].time)];
          entries := entries[k := entries[k].(product := 0)];
          return false, k;
        }
        k := k + 1;
      }
    }

    method ClearTasks()
      modifies `tasks, `taskList
      ensures taskList == [] && tasks == Padded([])
    {
      tasks, taskList := seq(MAX_TASKS, _ => 0), [];
    }

    method JudgeExit(e: Event, row: seq<int>, ghost log: seq<Event>)
      requires Tables() && |exits| == PRODUCTS && (test == 0 || test == 1)
      requires e.Exit? && 1 <= e.product <= PRODUCTS && row == LeavingRow(log, e)
      requires exits[e.product - 1] == ExitCount(log, e.product) + 1
      modifies `test
      ensures test == 0 || test == 1
      ensures test == 1 <==> old(test) == 1 && Harmless(counts, rows, log, e)
    {
      hide ExitCount, LeavingRow;
      var p := e.product;
      if counts[p - 1] != 0 && exits[p - 1] <= counts[p - 1] {
        if row != rows[p - 1] { test := 0; }
        if e.kind != 4 { test := 0; }
      }
    }

    /** Counts an exit and how long the product was inside. */
    method RecordExit(e: Event, ghost log: seq<Event>) returns (crash: bool)
      requires e.Exit? && 1 <= e.product <= PRODUCTS
      requires SumsOk(log, news, exits, stays) && EntriesOk(log, entries)
      modifies `exits, `entries, `stays
      ensures crash <==> ExitCount(log, e.product) >= EntryCount(Entered(log), e.product)
      ensures !crash ==> SumsOk(log + [e], news, exits, stays) && EntriesOk(log + [e], entries)
      ensures !crash ==> |exits| == PRODUCTS && exits[e.product - 1] == ExitCount(log, e.product) + 1
    {
      hide EntriesOk, SumsOk;
      var p := e.product;
      SumsCountExits(log, p, news, exits, stays);
      exits := exits[p - 1 := exits[p - 1] + 1];
      var k;
      crash, k := StrikeEntry(p, e.time, log);
      if crash { return; }
      ExitKeepsSums(log, e, k, news, old(exits), old(stays));
      ExitStrikesEntry(log, e, k, old(entries));
    }

    /** A product leaves; its tasks have been read. */
    method OnProductExit(e: Event, ghost log: seq<Event>) returns (crash: bool)
      requires e.Exit? && e.product != 0 && CountsRead(log)
      requires |Pending(log)| + |e.tasks| <= MAX_TASKS && tasks == Padded(Pending(log) + e.tasks)
      modifies `test, `taskList, `tasks, `exits, `entries, `stays
      ensures crash <==> !Readable(log, e)
      ensures !crash ==> LogRead(log + [e])
    {
      hide Entered, NewCount, ExitCount, ExitTimes, Pending, Durations, Runs, Clean, Struck, EntryCount, EntryTimes,
        SumsOk, EntriesOk, Harmless, LeavingRow;
      if e.product > PRODUCTS { return true; }
      var row := [e.product] + tasks;
      RowIsLeavingRow(log, e, row);
      crash := RecordExit(e, log);
      if crash { return; }
      JudgeExit(e, row, log);
      ClearTasks();
      OneLineMore(log, e);
      hide Padded;
    }

    /** An evacuation without a product: its tasks stay in the list. */
    method OnEmptyExit(e: Event, ghost log: seq<Event>)
      requires e.Exit? && e.product == 0 && CountsRead(log)
      requires taskList == Pending(log) + e.tasks && |taskList| <= MAX_TASKS && tasks == Padded(taskList)
      modifies `test
      ensures LogRead(log + [e])
    {
      hide Entered, NewCount, ExitCount, ExitTimes, Pending, Durations, Runs, Clean, Struck, EntryCount, EntryTimes;
      OneLineMore(log, e);
      OtherLineStrikesNothing(log, e, entries);
      if counts[PRODUCTS - 1] == 0 { test := 0; } // the index is -1
    }

    method OnExit(e: Event, ghost log: seq<Event>) returns (crash: bool)
      requires e.Exit? && LogRead(log)
      modifies `test, `taskList, `tasks, `exits, `entries, `stays
      ensures crash <==> !Readable(log, e)
      ensures !crash ==> LogRead(log + [e])
    {
      crash := ReadTasks(e.tasks);
      if crash { return; }
      assert CountsRead(log);
      hide CountsRead, Padded, Pending, ExitCount, EntryCount, Entered;
      if e.product != 0 {
        crash := OnProductExit(e, log);
      } else {
        OnEmptyExit(e, log);
      }
    }

    method OnOther(e: Event, ghost log: seq<Event>)
      requires !e.NewProduct? && !e.Exit? && LogRead(log)
      modifies `test, `logDurations
      ensures LogRead(log + [e])
    {
      hide Entered, NewCount, ExitCount, ExitTimes, Pending, Durations, Runs, Clean, Struck, EntryCount, EntryTimes;
      OneLineMore(log, e);
      OtherLineStrikesNothing(log, e, entries);
      if e.Fault? { test := 0; }
      if e.Tempo? { logDurations := logDurations + [e.duration]; }
    }

    method ReadLog(log: seq<Event>) returns (crash: bool)
      requires LogRead([])
      modifies `test, `taskList, `tasks, `exits, `news, `entries, `stays, `logDurations
      ensures crash <==> !Runs(log)
      ensures !crash ==> LogRead(log)
    {
      hide LogRead;
      for k := 0 to |log|
        invariant LogRead(log[..k])
      {
        assert log[..k + 1] == log[..k] + [log[k]];
        var e := log[k];
        crash := false;
        if e.NewProduct? { crash := OnNewProduct(e, log[..k]); }
        else if e.Exit? { crash := OnExit(e, log[..k]); }
        else { OnOther(e, log[..k]); }
        if crash {
          PrefixRuns(log, k);
          return;
        }
      }
      assert log[..|log|] == log;
      LogReadRuns(log);
      return false;
    }

    lemma LogReadRuns(log: seq<Event>)
      requires LogRead(log)
      ensures Runs(log)
    {
    }

    // 3. Comparing the log with the plan.

    /** Mean times inside, for the products that left. */
    method Average()
      requires |exits| == |stays| == PRODUCTS
      modifies `stays
      ensures |stays| == PRODUCTS && forall i | 0 <= i < PRODUCTS ::
        stays[i] == if exits[i] != 0 then old(stays)[i] / exits[i] as real else old(stays)[i]
    {
      for i := 0 to PRODUCTS
        invariant |stays| == PRODUCTS
        invariant forall k | 0 <= k < i ::
          stays[k] == if exits[k] != 0 then old(stays)[k] / exits[k] as real else old(stays)[k]
        invariant forall k | i <= k < PRODUCTS :: stays[k] == old(stays)[k]
      {
        if exits[i] != 0 { stays := stays[i := stays[i] / exits[i] as real]; }
      }
    }

    /** Compares planned with logged durations through a table of marks: 1 equal, 2 different. */
    method CompareTimes()
      requires |counts| == PRODUCTS && (test == 0 || test == 1) && IsTable(times) && IsTable(logTimes)
      modifies `test
      ensures test == 0 || test == 1
      ensures test == 1 <==> old(test) == 1 && RowsAgree(counts, times, logTimes, PRODUCTS)
    {
      var plan, logged := times, logTimes;
      var marks := seq(PRODUCTS, i requires 0 <= i < PRODUCTS =>
        seq(POSTS, j requires 0 <= j < POSTS => if plan[i][j] == logged[i][j] then 1 else 2));
      for i := 0 to PRODUCTS
        invariant test == 0 || test == 1
        invariant test == 1 <==> old(test) == 1 && RowsAgree(counts, times, logTimes, i)
      {
        ghost var before := test;
        for j := 0 to POSTS
          invariant test == 0 || test == 1
          invariant test == 1 <==> before == 1 && PostsAgree(counts, times, logTimes, i, j)
        {
          if marks[i][j] == 2 && counts[i] != 0 && times[i][j] != 0.0 { test := 0; }
        }
      }
    }

    method CompareCounts()
      requires |counts| == |news| == |exits| == PRODUCTS && (test == 0 || test == 1)
      modifies `test
      ensures test == 0 || test == 1
      ensures test == 1 <==> old(test) == 1 && forall i | 0 <= i < PRODUCTS ::
        CountAgrees(counts[i], news[i], exits[i])
    {
      for i := 0 to PRODUCTS
        invariant test == 0 || test == 1
        invariant test == 1 <==> old(test) == 1 && forall k | 0 <= k < i ::
          CountAgrees(counts[k], news[k], exits[k])
      {
        ghost var before := test;
        if counts[i] != news[i] { test := 0; }
        if counts[i] != exits[i] && counts[i] != 0 { test := 0; }
        assert test == 1 <==> before == 1 && CountAgrees(counts[i], news[i], exits[i]);
      }
    }

    /** The checks after the plan has been read without error. */
    method Judge(lines: seq<PlanLine>, log: seq<Event>) returns (crash: bool)
      requires PlanOk(lines) && PlanRead(lines) && LogRead([]) && IsTimeTable(times, PlanDurations(lines))
      modifies `test, `taskList, `tasks, `exits, `news, `entries, `stays, `logDurations, `logTimes
      ensures crash <==> !Accepted(log)
      ensures !crash ==> (test == 1 <==> Conforms(lines, log))
      ensures !crash ==> |stays| == PRODUCTS
      ensures !crash ==> forall p: nat | 1 <= p <= PRODUCTS :: stays[p - 1] == MeanStay(log, p)
      ensures !crash ==> Runs(log) && forall i | 0 <= i < PRODUCTS :: IsMeanStay(log, i + 1, stays[i])
    {
      hide Clean, Conforms, Runs, DurationsInRange, PlanDurations, PlannedCount, PlannedRow, Entered, Struck,
        NewCount, ExitCount, ExitTimes, EntryTimes, Pending, Padded, Durations, LastDuration, IsMeanStay;
      crash := ReadLog(log);
      if crash { return; }
      var ok;
      ok, logTimes := FillTimes(logDurations);
      if !ok { return true; }
      Average();
      CompareTimes();
      CompareCounts();
      VerdictIsConformity(lines, log, counts, rows, times, logTimes);
      forall i | 0 <= i < PRODUCTS ensures IsMeanStay(log, i + 1, stays[i]) {
        assert stays[i + 1 - 1] == MeanStay(log, i + 1);
        MeanStayIsMean(log, i + 1);
      }
    }

    /** The whole program on a plan and a log. */
    static method Check(lines: seq<PlanLine>, log: seq<Event>) returns (v: Verdict)
      ensures v == ConfigError <==> !PlanOk(lines)
      ensures v == Crashed <==> PlanOk(lines) && !Accepted(log)
      ensures v.Verdict? ==> (v.ok <==> Conforms(lines, log))
      ensures v.Verdict? ==> |v.means| == PRODUCTS
      ensures v.Verdict? ==> forall p: nat | 1 <= p <= PRODUCTS :: v.means[p - 1] == MeanStay(log, p)
      ensures v.Verdict? ==> Runs(log) && forall i | 0 <= i < PRODUCTS :: IsMeanStay(log, i + 1, v.means[i])
    {
      hide Conforms, Accepted, Runs, IsMeanStay;
      var c := new Checker();
      c.ReadPlan(lines);
      if c.configError != 0 { return ConfigError; }
      var ok;
      ok, c.times := c.FillTimes(c.planDurations);
      PlanDurationsInRange(lines);
      NothingRead(c.counts, c.rows);
      var crash := c.Judge(lines, log);
      if crash { return Crashed; }
      return Verdict(c.test == 1, c.stays);
    }
  }

  // ----- what the verdict means -----

  ghost predicate PlanOk(lines: seq<PlanLine>) {
    forall k | 0 <= k < |lines| :: LineOk(lines[k])
  }

  /** No index is refused while the log is read. */
  ghost predicate Accepted(log: seq<Event>) {
    Runs(log) && DurationsInRange(Durations(log))
  }

  function MeanStay(log: seq<Event>, p: nat): real {
    var total := ExitTimes(log, p) - EntryTimes(Entered(log), p, ExitCount(log, p));
    if ExitCount(log, p) != 0 then total / ExitCount(log, p) as real else total
  }

  /** Product p leaves as planned every time it leaves. */
  ghost predicate ExitsConform(lines: seq<PlanLine>, log: seq<Event>, p: nat) {
    forall k | 0 <= k < |log| && log[k].Exit? && log[k].product == p ::
      log[k].kind == 4 && LeavingRow(log[..k], log[k]) == PlannedRow(lines, p)
  }

  ghost predicate EntriesConform(log: seq<Event>, p: nat) {
    forall k | 0 <= k < |log| && log[k].NewProduct? && Slot(log[k].product) == Some(p - 1) :: log[k].kind == 4
  }

  predicate IsTable(table: seq<seq<real>>) {
    |table| == PRODUCTS && forall i | 0 <= i < PRODUCTS :: |table[i]| == POSTS
  }

  /** A planned nonzero duration of a planned product is the logged one. */
  predicate TimeAgrees(counts: seq<int>, times: seq<seq<real>>, logTimes: seq<seq<real>>, i: nat, j: nat)
    requires |counts| == PRODUCTS && IsTable(times) && IsTable(logTimes) && i < PRODUCTS && j < POSTS
  {
    counts[i] != 0 && times[i][j] != 0.0 ==> times[i][j] == logTimes[i][j]
  }

  predicate PostsAgree(counts: seq<int>, times: seq<seq<real>>, logTimes: seq<seq<real>>, i: nat, n: nat)
    requires |counts| == PRODUCTS && IsTable(times) && IsTable(logTimes) && i < PRODUCTS && n <= POSTS
  {
    n == 0 || (PostsAgree(counts, times, logTimes, i, n - 1) && TimeAgrees(counts, times, logTimes, i, n - 1))
  }

  predicate RowsAgree(counts: seq<int>, times: seq<seq<real>>, logTimes: seq<seq<real>>, n: nat)
    requires |counts| == PRODUCTS && IsTable(times) && IsTable(logTimes) && n <= PRODUCTS
  {
    n == 0 || (RowsAgree(counts, times, logTimes, n - 1) && PostsAgree(counts, times, logTimes, n - 1, POSTS))
  }

  lemma {:induction false} PostsAgreeOneByOne(counts: seq<int>, times: seq<seq<real>>, logTimes: seq<seq<real>>,
                                              i: nat, n: nat)
    requires |counts| == PRODUCTS && IsTable(times) && IsTable(logTimes) && i < PRODUCTS && n <= POSTS
    ensures PostsAgree(counts, times, logTimes, i, n) <==>
      forall j: nat | j < n :: TimeAgrees(counts, times, logTimes, i, j)
  {
    if n > 0 { PostsAgreeOneByOne(counts, times, logTimes, i, n - 1); }
  }

  lemma {:induction false} RowsAgreeOneByOne(counts: seq<int>, times: seq<seq<real>>, logTimes: seq<seq<real>>,
                                             n: nat)
    requires |counts| == PRODUCTS && IsTable(times) && IsTable(logTimes) && n <= PRODUCTS
    ensures RowsAgree(counts, times, logTimes, n) <==>
      forall i: nat, j: nat | i < n && j < POSTS :: TimeAgrees(counts, times, logTimes, i, j)
  {
    if n > 0 {
      RowsAgreeOneByOne(counts, times, logTimes, n - 1);
      PostsAgreeOneByOne(counts, times, logTimes, n - 1, POSTS);
    }
  }

  ghost predicate CountAgrees(planned: int, news: int, exits: int) {
    planned == news && (planned != 0 ==> planned == exits)
  }

  ghost predicate TimeConforms(planned: seq<Duration>, logged: seq<Duration>, p: nat, j: nat)
    requires p > 0
  {
    var seconds := LastDuration(planned, p - 1, j);
    seconds != 0.0 ==> seconds == LastDuration(logged, p - 1, j)
  }

  /** Each planned nonzero duration of p is the last one logged for that task. */
  ghost predicate TimesConform(lines: seq<PlanLine>, log: seq<Event>, p: nat)
    requires PlanOk(lines) && p > 0
  {
    forall j: nat | j < POSTS :: TimeConforms(PlanDurations(lines), Durations(log), p, j)
  }

  /** The whole log does what the plan asks for. */
  ghost predicate Conforms(lines: seq<PlanLine>, log: seq<Event>) {
    && PlanOk(lines)
    && (forall k | 0 <= k < |log| :: !log[k].Fault?)
    && (forall k | 0 <= k < |log| && log[k].Exit? && log[k].product == 0 :: PlannedCount(lines, PRODUCTS) != 0)
    && (forall p: nat | 1 <= p <= PRODUCTS :: NewCount(log, p - 1) == PlannedCount(lines, p))
    && (forall p: nat | 1 <= p <= PRODUCTS && PlannedCount(lines, p) != 0 ::
          && ExitCount(log, p) == PlannedCount(lines, p)
          && ExitsConform(lines, log, p) && EntriesConform(log, p) && TimesConform(lines, log, p))
  }

  lemma {:induction false} LineDurationsInRange(l: PlanLine, n: nat)
    requires LineOk(l) && n <= |l.tasks|
    ensures DurationsInRange(LineDurations(l, n))
  {
    if n > 0 { LineDurationsInRange(l, n - 1); }
  }

  lemma {:induction false} PlanDurationsInRange(lines: seq<PlanLine>)
    requires PlanOk(lines)
    ensures DurationsInRange(PlanDurations(lines))
  {
    if lines != [] {
      PlanDurationsInRange(lines[..|lines| - 1]);
      LineDurationsInRange(lines[|lines| - 1], |lines[|lines| - 1].tasks|);
    }
  }

  lemma NothingRead(counts: seq<int>, rows: seq<seq<int>>)
    requires |counts| == |rows| == PRODUCTS
    ensures Runs([]) && Clean(counts, rows, []) && Pending([]) == [] && Durations([]) == [] && Entered([]) == []
    ensures Padded([]) == seq(MAX_TASKS, _ => 0)
    ensures SumsOk([], seq(PRODUCTS, _ => 0), seq(PRODUCTS, _ => 0), seq(PRODUCTS, _ => 0.0))
    ensures EntriesOk([], [])
  {
  }

  lemma {:induction false} CleanLineByLine(counts: seq<int>, rows: seq<seq<int>>, log: seq<Event>)
    requires |counts| == |rows| == PRODUCTS
    ensures Clean(counts, rows, log) <==> forall k | 0 <= k < |log| :: Harmless(counts, rows, log[..k], log[k])
  {
    if log != [] {
      var before := log[..|log| - 1];
      CleanLineByLine(counts, rows, before);
      forall k | 0 <= k < |before| ensures before[..k] == log[..k] && before[k] == log[k] {
      }
    }
  }

  lemma {:induction false} RunsLineByLine(log: seq<Event>, k: nat)
    requires Runs(log) && k < |log|
    ensures Readable(log[..k], log[k])
  {
    if k < |log| - 1 {
      assert log[..|log| - 1][..k] == log[..k];
      RunsLineByLine(log[..|log| - 1], k);
    }
  }

  lemma {:induction false} ExitCountIsMonotone(log: seq<Event>, k: nat, p: nat)
    requires k < |log| && log[k].Exit? && log[k].product == p
    ensures ExitCount(log[..k], p) + 1 <= ExitCount(log, p)
  {
    if k < |log| - 1 {
      assert log[..|log| - 1][..k] == log[..k];
      ExitCountIsMonotone(log[..|log| - 1], k, p);
    }
  }

  /** The tables the comparison sees. */
  ghost predicate TablesHold(lines: seq<PlanLine>, log: seq<Event>, counts: seq<int>, rows: seq<seq<int>>,
                             times: seq<seq<real>>, logTimes: seq<seq<real>>)
  {
    && PlanOk(lines) && |counts| == |rows| == PRODUCTS
    && (forall p | 0 <= p < PRODUCTS :: counts[p] == PlannedCount(lines, p + 1))
    && (forall p | 0 <= p < PRODUCTS :: rows[p] == PlannedRow(lines, p + 1))
    && IsTimeTable(times, PlanDurations(lines)) && IsTimeTable(logTimes, Durations(log))
  }

  /** test is 1 at the end. */
  ghost predicate Passes(log: seq<Event>, counts: seq<int>, rows: seq<seq<int>>,
                         times: seq<seq<real>>, logTimes: seq<seq<real>>)
    requires |counts| == |rows| == PRODUCTS && IsTable(times) && IsTable(logTimes)
  {
    && Clean(counts, rows, log)
    && RowsAgree(counts, times, logTimes, PRODUCTS)
    && (forall i | 0 <= i < PRODUCTS :: CountAgrees(counts[i], NewCount(log, i), ExitCount(log, i + 1)))
  }

  /** On logs that are read to the end, the final test decides conformity. */
  lemma VerdictIsConformity(lines: seq<PlanLine>, log: seq<Event>, counts: seq<int>, rows: seq<seq<int>>,
                            times: seq<seq<real>>, logTimes: seq<seq<real>>)
    requires TablesHold(lines, log, counts, rows, times, logTimes) && Runs(log)
    ensures Passes(log, counts, rows, times, logTimes) <==> Conforms(lines, log)
  {
    CleanLineByLine(counts, rows, log);
    if Passes(log, counts, rows, times, logTimes) { PassingConforms(lines, log, counts, rows, times, logTimes); }
    if Conforms(lines, log) { ConformingPasses(lines, log, counts, rows, times, logTimes); }
  }

  lemma PassingConforms(lines: seq<PlanLine>, log: seq<Event>, counts: seq<int>, rows: seq<seq<int>>,
                        times: seq<seq<real>>, logTimes: seq<seq<real>>)
    requires TablesHold(lines, log, counts, rows, times, logTimes) && Runs(log)
    requires Passes(log, counts, rows, times, logTimes)
    ensures Conforms(lines, log)
  {
    CleanLineByLine(counts, rows, log);
    RowsAgreeOneByOne(counts, times, logTimes, PRODUCTS);
    forall k | 0 <= k < |log| ensures Harmless(counts, rows, log[..k], log[k]) {
    }
    forall p: nat | 1 <= p <= PRODUCTS && PlannedCount(lines, p) != 0
      ensures ExitCount(log, p) == PlannedCount(lines, p)
      ensures ExitsConform(lines, log, p) && EntriesConform(log, p) && TimesConform(lines, log, p)
    {
      assert counts[p - 1] == PlannedCount(lines, p) && rows[p - 1] == PlannedRow(lines, p);
      forall k | 0 <= k < |log| && log[k].Exit? && log[k].product == p
        ensures log[k].kind == 4 && LeavingRow(log[..k], log[k]) == PlannedRow(lines, p)
      {
        ExitCountIsMonotone(log, k, p);
      }
      forall j: nat | j < POSTS ensures TimeConforms(PlanDurations(lines), Durations(log), p, j) {
        assert TimeAgrees(counts, times, logTimes, p - 1, j);
      }
    }
    forall p: nat | 1 <= p <= PRODUCTS ensures NewCount(log, p - 1) == PlannedCount(lines, p) {
      assert counts[p - 1] == PlannedCount(lines, p);
    }
  }

  lemma ConformingPasses(lines: seq<PlanLine>, log: seq<Event>, counts: seq<int>, rows: seq<seq<int>>,
                         times: seq<seq<real>>, logTimes: seq<seq<real>>)
    requires TablesHold(lines, log, counts, rows, times, logTimes) && Runs(log)
    requires Conforms(lines, log)
    ensures Passes(log, counts, rows, times, logTimes)
  {
    CleanLineByLine(counts, rows, log);
    RowsAgreeOneByOne(counts, times, logTimes, PRODUCTS);
    forall k | 0 <= k < |log| ensures Harmless(counts, rows, log[..k], log[k]) {
      RunsLineByLine(log, k);
      if log[k].Exit? && log[k].product != 0 {
        assert counts[log[k].product - 1] == PlannedCount(lines, log[k].product);
      }
      if log[k].NewProduct? {
        var i := Slot(log[k].product).value;
        assert counts[i] == PlannedCount(lines, i + 1);
        assert Slot(log[k].product) == Some(i + 1 - 1);
      }
    }
    forall i | 0 <= i < PRODUCTS
      ensures CountAgrees(counts[i], NewCount(log, i), ExitCount(log, i + 1))
    {
      var p := i + 1;
      assert NewCount(log, p - 1) == PlannedCount(lines, p);
    }
    forall i: nat, j: nat | i < PRODUCTS && j < POSTS ensures TimeAgrees(counts, times, logTimes, i, j) {
      var p := i + 1;
      assert counts[i] == PlannedCount(lines, p);
      assert LastDuration(PlanDurations(lines), p - 1, j) == times[i][j];
      if counts[i] != 0 {
        assert TimesConform(lines, log, p);
        assert TimeConforms(PlanDurations(lines), Durations(log), p, j);
      }
    }
  }

  // ----- matching exits with appearances -----

  /** Appearance k is the one of product p that n others of p precede. */
  ghost predicate IsEntry(es: seq<Entry>, k: nat, p: nat, n: nat) {
    k < |es| && es[k].product == p && EntryCount(es[..k], p) == n
  }

  lemma {:induction false} EntryCountIsMonotone(es: seq<Entry>, k: nat, p: nat)
    requires k <= |es|
    ensures EntryCount(es[..k], p) <= EntryCount(es, p)
  {
    if k < |es| {
      EntryCountIsMonotone(es[..|es| - 1], k, p);
      assert es[..|es| - 1][..k] == es[..k];
    } else {
      assert es[..k] == es;
    }
  }

  /** There is only one such appearance. */
  lemma EntryIsUnique(es: seq<Entry>, k: nat, l: nat, p: nat, n: nat)
    requires IsEntry(es, k, p, n) && IsEntry(es, l, p, n)
    ensures k == l
  {
    var i, j := if k < l then k else l, if k < l then l else k;
    if i < j {
      assert es[..j][..i + 1] == es[..i + 1] && es[..i + 1][..i] == es[..i];
      EntryCountIsMonotone(es[..j], i + 1, p);
    }
  }

  /** Its time is what the sum of the first n + 1 times has more than that of the first n. */
  lemma {:induction false} OneEntryMore(es: seq<Entry>, k: nat, p: nat, n: nat)
    requires IsEntry(es, k, p, n)
    ensures EntryTimes(es, p, n + 1) == EntryTimes(es, p, n) + es[k].time
  {
    var before := es[..|es| - 1];
    if k == |es| - 1 {
      SameEntryTimes(before, p, n);
    } else {
      assert before[..k] == es[..k];
      OneEntryMore(before, k, p, n);
      assert before[..k + 1][..k] == before[..k];
      EntryCountIsMonotone(before, k + 1, p);
    }
  }

  /** The search stops at the first line of p that is not struck out, and this is the next one due. */
  lemma StruckOrNext(log: seq<Event>, k: nat, p: nat)
    requires k < |Entered(log)| && p != 0 && EntryCount(Entered(log)[..k], p) <= ExitCount(log, p)
    ensures var es, n := Entered(log), ExitCount(log, p);
      if Struck(log, k).product == p then
        IsEntry(es, k, p, n) && Struck(log, k) == es[k] && n < EntryCount(es, p)
      else EntryCount(es[..k + 1], p) <= n
  {
    var es := Entered(log);
    assert es[..k + 1][..k] == es[..k];
    EntryCountIsMonotone(es, k + 1, p);
  }

  lemma {:induction false} SameEntryTimes(es: seq<Entry>, p: nat, n: nat)
    requires EntryCount(es, p) <= n
    ensures EntryTimes(es, p, n + 1) == EntryTimes(es, p, n)
  {
    if es != [] { SameEntryTimes(es[..|es| - 1], p, n); }
  }

  lemma {:induction false} FewerExitsThanEntries(log: seq<Event>, p: nat)
    requires Runs(log) && p != 0
    ensures ExitCount(log, p) <= EntryCount(Entered(log), p)
  {
    if log != [] {
      var before, e := log[..|log| - 1], log[|log| - 1];
      FewerExitsThanEntries(before, p);
      if e.NewProduct? {
        var es := Entered(before) + [Entry(e.product, e.time)];
        assert Entered(log) == es && es[..|es| - 1] == Entered(before);
      } else {
        assert Entered(log) == Entered(before);
      }
    }
  }

  lemma NewEntryIsNotStruck(log: seq<Event>, e: Event, entries: seq<Entry>)
    requires e.NewProduct? && Runs(log) && EntriesOk(log, entries)
    ensures EntriesOk(log + [e], entries + [Entry(e.product, e.time)])
  {
    var all, es := log + [e], Entered(log);
    OneLineMore(log, e);
    hide Entered, EntryCount, ExitCount, Runs;
    forall k | 0 <= k <= |es|
      ensures Struck(all, k) == if k == |es| then Entry(e.product, e.time) else Struck(log, k)
    {
      assert Entered(all)[..k] == es[..k];
      if k == |es| {
        assert es[..k] == es;
        if e.product != 0 { FewerExitsThanEntries(log, e.product); }
      }
    }
  }

  lemma NewEntryIsNotCounted(log: seq<Event>, e: Event, p: nat)
    requires e.NewProduct? && Runs(log) && p != 0
    ensures EntryTimes(Entered(log + [e]), p, ExitCount(log, p)) == EntryTimes(Entered(log), p, ExitCount(log, p))
  {
    OneLineMore(log, e);
    var es := Entered(log + [e]);
    assert es[..|es| - 1] == Entered(log);
    FewerExitsThanEntries(log, p);
  }

  lemma NewProductKeepsSums(log: seq<Event>, e: Event, news: seq<int>, exits: seq<int>, stays: seq<real>)
    requires e.NewProduct? && Slot(e.product).Some? && Runs(log) && SumsOk(log, news, exits, stays)
    ensures var i := Slot(e.product).value; SumsOk(log + [e], news[i := news[i] + 1], exits, stays)
  {
    hide Entered, NewCount, ExitCount, ExitTimes, EntryTimes, Runs;
    OneLineMore(log, e);
    forall p: nat | 1 <= p <= PRODUCTS
      ensures EntryTimes(Entered(log + [e]), p, ExitCount(log, p)) == EntryTimes(Entered(log), p, ExitCount(log, p))
    {
      NewEntryIsNotCounted(log, e, p);
    }
  }

  lemma RowIsLeavingRow(log: seq<Event>, e: Event, row: seq<int>)
    requires e.Exit? && row == [e.product] + Padded(Pending(log) + e.tasks)
    ensures row == LeavingRow(log, e)
  {
  }

  lemma SumsCountExits(log: seq<Event>, p: nat, news: seq<int>, exits: seq<int>, stays: seq<real>)
    requires SumsOk(log, news, exits, stays) && 1 <= p <= PRODUCTS
    ensures |exits| == |stays| == PRODUCTS && exits[p - 1] == ExitCount(log, p)
  {
  }

  lemma OneExitMore(log: seq<Event>, e: Event)
    requires e.Exit?
    ensures var all := log + [e];
      && Entered(all) == Entered(log)
      && (forall i: nat :: NewCount(all, i) == NewCount(log, i))
      && (forall p: nat :: ExitCount(all, p) == ExitCount(log, p) + if e.product == p then 1 else 0)
      && (forall p: nat :: ExitTimes(all, p) == ExitTimes(log, p) + if e.product == p then e.time else 0.0)
  {
    OneLineMore(log, e);
  }

  lemma ExitKeepsSums(log: seq<Event>, e: Event, k: nat, news: seq<int>, exits: seq<int>, stays: seq<real>)
    requires e.Exit? && 1 <= e.product <= PRODUCTS && SumsOk(log, news, exits, stays)
    requires IsEntry(Entered(log), k, e.product, ExitCount(log, e.product))
    ensures var i := e.product - 1; SumsOk(log + [e], news, exits[i := exits[i] + 1],
      stays[i := stays[i] + (e.time - Entered(log)[k].time)])
  {
    hide Entered, NewCount, ExitCount, ExitTimes, EntryTimes;
    OneExitMore(log, e);
    OneEntryMore(Entered(log), k, e.product, ExitCount(log, e.product));
  }

  lemma {:induction false} PrefixRuns(log: seq<Event>, k: nat)
    requires k < |log| && !(Runs(log[..k]) && Readable(log[..k], log[k]))
    ensures !Runs(log)
  {
    if k < |log| - 1 {
      assert log[..|log| - 1][..k] == log[..k];
      PrefixRuns(log[..|log| - 1], k);
    }
  }

  lemma OtherLineStrikesNothing(log: seq<Event>, e: Event, entries: seq<Entry>)
    requires !e.NewProduct? && (e.Exit? ==> e.product == 0) && EntriesOk(log, entries)
    ensures EntriesOk(log + [e], entries)
  {
    OneLineMore(log, e);
    assert forall k | 0 <= k < |Entered(log)| :: Struck(log + [e], k) == Struck(log, k);
  }

  /** An exit strikes out the appearance it is matched with and no other. */
  lemma ExitStrikesEntry(log: seq<Event>, e: Event, k: nat, entries: seq<Entry>)
    requires e.Exit? && e.product != 0 && IsEntry(Entered(log), k, e.product, ExitCount(log, e.product))
    requires EntriesOk(log, entries)
    ensures EntriesOk(log + [e], entries[k := entries[k].(product := 0)])
  {
    var all, es, n := log + [e], Entered(log), ExitCount(log, e.product);
    OneLineMore(log, e);
    forall j | 0 <= j < |es|
      ensures Struck(all, j) == if j == k then Struck(log, j).(product := 0) else Struck(log, j)
    {
      if es[j].product == e.product && EntryCount(es[..j], e.product) == n { EntryIsUnique(es, j, k, e.product, n); }
    }
  }

  lemma {:induction false} SomeEntryHasRank(es: seq<Entry>, p: nat, n: nat) returns (k: nat)
    requires n < EntryCount(es, p)
    ensures IsEntry(es, k, p, n)
  {
    var before := es[..|es| - 1];
    if n < EntryCount(before, p) {
      k := SomeEntryHasRank(before, p, n);
      assert before[..k] == es[..k];
    } else {
      k := |es| - 1;
    }
  }

  lemma {:induction false} EnteredGrows(log: seq<Event>, t: nat)
    requires t <= |log|
    ensures Entered(log[..t]) <= Entered(log)
  {
    if t < |log| {
      EnteredGrows(log[..|log| - 1], t);
      assert log[..|log| - 1][..t] == log[..t];
    } else {
      assert log[..t] == log;
    }
  }

  /** Exits are matched first in, first out: the exit on line t has a partner among the earlier
      appearances of its product, the one as many others precede as exits precede t. */
  lemma ExitHasPartner(log: seq<Event>, t: nat) returns (k: nat)
    requires Runs(log) && t < |log| && log[t].Exit? && log[t].product != 0
    ensures k < |Entered(log[..t])|
    ensures IsEntry(Entered(log), k, log[t].product, ExitCount(log[..t], log[t].product))
  {
    RunsLineByLine(log, t);
    k := SomeEntryHasRank(Entered(log[..t]), log[t].product, ExitCount(log[..t], log[t].product));
    EnteredGrows(log, t);
    assert Entered(log[..t])[..k] == Entered(log)[..k];
  }

  /** No appearance is the partner of two exits. */
  lemma PartnersDiffer(log: seq<Event>, t: nat, u: nat, k: nat, l: nat)
    requires t < u < |log| && log[t].Exit? && log[u].Exit?
    requires IsEntry(Entered(log), k, log[t].product, ExitCount(log[..t], log[t].product))
    requires IsEntry(Entered(log), l, log[u].product, ExitCount(log[..u], log[u].product))
    ensures k != l
  {
    if log[t].product == log[u].product {
      assert log[..u][..t] == log[..t];
      ExitCountIsMonotone(log[..u], t, log[t].product);
    }
  }

  // ----- what the means are -----

  lemma SomePartner(log: seq<Event>, t: nat)
    requires Runs(log) && t < |log| && log[t].Exit? && log[t].product != 0
    ensures exists k: nat :: IsEntry(Entered(log), k, log[t].product, ExitCount(log[..t], log[t].product))
  {
    var k := ExitHasPartner(log, t);
  }

  /** How long the product that leaves on line t was inside: since its partner appeared. */
  ghost function Stay(log: seq<Event>, t: nat): real
    requires Runs(log) && t < |log| && log[t].Exit? && log[t].product != 0
  {
    SomePartner(log, t);
    var k: nat :| IsEntry(Entered(log), k, log[t].product, ExitCount(log[..t], log[t].product));
    log[t].time - Entered(log)[k].time
  }

  ghost predicate Leaves(log: seq<Event>, p: nat, t: nat) {
    t < |log| && log[t].Exit? && log[t].product == p
  }

  /** The stays of product p that end before line n, added up. */
  ghost function StayUntil(log: seq<Event>, p: nat, n: nat): real
    requires Runs(log) && p != 0 && n <= |log|
  {
    if n == 0 then 0.0
    else StayUntil(log, p, n - 1) + if Leaves(log, p, n - 1) then Stay(log, n - 1) else 0.0
  }

  /** The number m is the mean of the stays of product p; 0 for a product that never left. */
  ghost predicate IsMeanStay(log: seq<Event>, p: nat, m: real)
    requires Runs(log) && p != 0
  {
    var exits := set t: nat | t < |log| && Leaves(log, p, t);
    m * |exits| as real == StayUntil(log, p, |log|) && (exits == {} ==> m == 0.0)
  }

  lemma OneIndexMore(earlier: set<nat>, all: set<nat>, n: nat, more: bool)
    requires n !in earlier && forall t: nat :: t in all <==> t in earlier || (more && t == n)
    ensures |all| == |earlier| + if more then 1 else 0
  {
    assert all == if more then earlier + {n} else earlier;
  }

  lemma {:induction false} ExitsAreCounted(log: seq<Event>, p: nat)
    ensures ExitCount(log, p) == |set t: nat | t < |log| && Leaves(log, p, t)|
  {
    hide ExitCount;
    var exits := set t: nat | t < |log| && Leaves(log, p, t);
    if log == [] {
      NothingCounted(log, p);
      assert exits == {};
    } else {
      var before, n := log[..|log| - 1], |log| - 1;
      var earlier := set t: nat | t < n && Leaves(before, p, t);
      ExitsAreCounted(before, p);
      OneIndexMore(earlier, exits, n, Leaves(log, p, n));
      assert log[..n + 1] == log;
      ExitsOneMore(log, p, n);
    }
  }

  ghost predicate Appears(log: seq<Event>, p: nat, t: nat) {
    t < |log| && log[t].NewProduct? && log[t].product == p
  }

  lemma {:induction false} AppearancesAreCounted(log: seq<Event>, p: nat)
    ensures EntryCount(Entered(log), p) == |set t: nat | t < |log| && Appears(log, p, t)|
  {
    hide EntryCount, Entered;
    var all := set t: nat | t < |log| && Appears(log, p, t);
    if log == [] {
      NothingAppeared(p);
      assert all == {};
    } else {
      var before, n := log[..|log| - 1], |log| - 1;
      var earlier := set t: nat | t < n && Appears(before, p, t);
      AppearancesAreCounted(before, p);
      OneIndexMore(earlier, all, n, Appears(log, p, n));
      assert log == before + [log[n]];
      AppearancesOneMore(before, log[n], p);
    }
  }

  lemma NothingAppeared(p: nat)
    ensures EntryCount(Entered([]), p) == 0
  {
  }

  lemma AppearancesOneMore(log: seq<Event>, e: Event, p: nat)
    ensures EntryCount(Entered(log + [e]), p) ==
            EntryCount(Entered(log), p) + if e.NewProduct? && e.product == p then 1 else 0
  {
    hide Entered;
    OneLineMore(log, e);
    if e.NewProduct? { assert Entered(log + [e])[..|Entered(log)|] == Entered(log); }
  }

  lemma NothingCounted(log: seq<Event>, p: nat)
    ensures ExitTimes([], p) == 0.0 && ExitCount([], p) == 0 && EntryTimes(Entered(log), p, 0) == 0.0
  {
    NoEntryTimes(Entered(log), p);
  }

  lemma {:induction false} NoEntryTimes(es: seq<Entry>, p: nat)
    ensures EntryTimes(es, p, 0) == 0.0
  {
    if es != [] { NoEntryTimes(es[..|es| - 1], p); }
  }

  /** The sums the program keeps add up stay by stay. */
  lemma {:induction false} SumsAreStays(log: seq<Event>, p: nat, n: nat)
    requires Runs(log) && p != 0 && n <= |log|
    ensures StayUntil(log, p, n) ==
            ExitTimes(log[..n], p) - EntryTimes(Entered(log), p, ExitCount(log[..n], p))
  {
    hide Runs, Entered, EntryTimes, ExitTimes, ExitCount, Stay, IsEntry;
    if n == 0 {
      NothingCounted(log, p);
    } else {
      SumsAreStays(log, p, n - 1);
      var before, e := log[..n - 1], log[n - 1];
      assert log[..n] == before + [e];
      if Leaves(log, p, n - 1) {
        OneExitMore(before, e);
        StayIsDifference(log, n - 1);
      } else {
        OneLineMore(before, e);
      }
    }
  }

  lemma StayHasPartner(log: seq<Event>, t: nat) returns (k: nat)
    requires Runs(log) && t < |log| && log[t].Exit? && log[t].product != 0
    ensures IsEntry(Entered(log), k, log[t].product, ExitCount(log[..t], log[t].product))
    ensures Stay(log, t) == log[t].time - Entered(log)[k].time
  {
    hide Runs, Entered, ExitCount, EntryCount;
    SomePartner(log, t);
    k :| IsEntry(Entered(log), k, log[t].product, ExitCount(log[..t], log[t].product)) &&
      Stay(log, t) == log[t].time - Entered(log)[k].time;
  }

  lemma StayIsDifference(log: seq<Event>, t: nat)
    requires Runs(log) && t < |log| && log[t].Exit? && log[t].product != 0
    ensures var p, n := log[t].product, ExitCount(log[..t], log[t].product);
      Stay(log, t) == log[t].time - (EntryTimes(Entered(log), p, n + 1) - EntryTimes(Entered(log), p, n))
  {
    hide Runs, Entered, EntryTimes, ExitCount, EntryCount, Stay;
    var k := StayHasPartner(log, t);
    OneEntryMore(Entered(log), k, log[t].product, ExitCount(log[..t], log[t].product));
  }

  /** The means the program returns are means of stays. */
  lemma MeanStayIsMean(log: seq<Event>, p: nat)
    requires Runs(log) && p != 0
    ensures IsMeanStay(log, p, MeanStay(log, p))
  {
    hide Runs, Entered, EntryTimes, ExitTimes, ExitCount, StayUntil, Leaves;
    ExitsAreCounted(log, p);
    SumsAreStays(log, p, |log|);
    assert log[..|log|] == log;
    var total, n := StayUntil(log, p, |log|), ExitCount(log, p);
    var exits := set t: nat | t < |log| && Leaves(log, p, t);
    if n == 0 {
      assert forall t: nat | t < |log| && Leaves(log, p, t) :: t in exits;
      NoStays(log, p, |log|);
    } else {
      assert total / n as real * n as real == total;
    }
  }

  lemma {:induction false} NoStays(log: seq<Event>, p: nat, n: nat)
    requires Runs(log) && p != 0 && n <= |log| && forall t: nat | t < |log| :: !Leaves(log, p, t)
    ensures StayUntil(log, p, n) == 0.0
  {
    hide Runs, Leaves, Stay;
    if n > 0 { NoStays(log, p, n - 1); }
  }

  /** The mean lies between any bounds of the stays, in particular between the least and the largest. */
  lemma MeanIsBetween(log: seq<Event>, p: nat, m: real, least: real, largest: real)
    requires Runs(log) && p != 0 && IsMeanStay(log, p, m) && ExitCount(log, p) > 0
    requires forall t: nat | Leaves(log, p, t) :: least <= Stay(log, t) <= largest
    ensures least <= m <= largest
  {
    hide Runs, StayUntil, Leaves, Stay, ExitCount;
    ExitsAreCounted(log, p);
    StaysAreBetween(log, p, |log|, least, largest);
    assert log[..|log|] == log;
    var n := ExitCount(log, p) as real;
    TimesKeepsOrder(least, m, n);
    TimesKeepsOrder(m, largest, n);
  }

  lemma TimesKeepsOrder(a: real, b: real, n: real)
    requires n > 0.0 && a * n <= b * n
    ensures a <= b
  {
    assert (b - a) * n == b * n - a * n;
  }

  lemma {:induction false} StaysAreBetween(log: seq<Event>, p: nat, n: nat, least: real, largest: real)
    requires Runs(log) && p != 0 && n <= |log|
    requires forall t: nat | Leaves(log, p, t) :: least <= Stay(log, t) <= largest
    ensures var k := ExitCount(log[..n], p) as real;
      least * k <= StayUntil(log, p, n) <= largest * k
  {
    hide Runs, Stay, ExitCount, ExitTimes, Entered, Leaves;
    if n == 0 {
      NothingCounted(log, p);
    } else {
      StaysAreBetween(log, p, n - 1, least, largest);
      var before, e := log[..n - 1], log[n - 1];
      assert log[..n] == before + [e];
      ExitsOneMore(log, p, n - 1);
      OneTimeMore(least, ExitCount(before, p) as real);
      OneTimeMore(largest, ExitCount(before, p) as real);
    }
  }

  lemma ExitsOneMore(log: seq<Event>, p: nat, n: nat)
    requires n < |log|
    ensures ExitCount(log[..n + 1], p) == ExitCount(log[..n], p) + if Leaves(log, p, n) then 1 else 0
  {
    hide ExitCount;
    assert log[..n + 1] == log[..n] + [log[n]];
    OneLineMore(log[..n], log[n]);
  }

  lemma OneTimeMore(x: real, k: real)
    ensures x * (k + 1.0) == x * k + x
  {
  }

  // ----- plans and logs as they are meant to be written -----

  lemma {:induction false} NothingPending(log: seq<Event>)
    requires forall k | 0 <= k < |log| && log[k].Exit? :: log[k].product != 0
    ensures Pending(log) == []
  {
    if log != [] { NothingPending(log[..|log| - 1]); }
  }

  lemma {:induction false} PlanOfLine(lines: seq<PlanLine>, k: nat, p: int)
    requires k < |lines| && lines[k].product == p && LineOk(lines[k])
    requires forall i | 0 <= i < |lines| && i != k :: lines[i].product != p
    ensures PlannedCount(lines, p) == lines[k].count
    ensures PlannedRow(lines, p) == [p] + Padded(lines[k].tasks)
  {
    var before := lines[..|lines| - 1];
    if k == |lines| - 1 {
      NoPlan(before, p);
      var row := [p] + Padded(lines[k].tasks);
      forall i: nat | i <= MAX_TASKS ensures PlannedEntry(lines, p, i) == row[i] {
        assert PlannedEntry(before, p, i) == 0;
      }
      assert PlannedRow(lines, p) == row;
    } else {
      PlanOfLine(before, k, p);
      assert PlannedRow(lines, p) == PlannedRow(before, p);
    }
  }

  lemma {:induction false} NoPlan(lines: seq<PlanLine>, p: int)
    requires forall i | 0 <= i < |lines| :: lines[i].product != p
    ensures PlannedCount(lines, p) == 0
    ensures forall i: nat :: PlannedEntry(lines, p, i) == 0
  {
    if lines != [] { NoPlan(lines[..|lines| - 1], p); }
  }

  ghost predicate IsOnlyLine(lines: seq<PlanLine>, i: nat) {
    i < |lines| && forall j | 0 <= j < |lines| && j != i :: lines[j].product != lines[i].product
  }

  ghost predicate NoEmptyEvacuation(log: seq<Event>) {
    forall k | 0 <= k < |log| && log[k].Exit? :: log[k].product != 0
  }

  /** Task k of a good line that no later one repeats. */
  ghost predicate IsLastOfTask(l: PlanLine, k: nat) {
    LineOk(l) && k < |l.tasks| && forall m | k < m < |l.tasks| :: l.tasks[m] != l.tasks[k]
  }

  /** The product of the line leaves with exactly its tasks, every time. */
  ghost predicate LeavesWithTasks(log: seq<Event>, l: PlanLine) {
    forall k | 0 <= k < |log| && log[k].Exit? && log[k].product == l.product ::
      log[k].kind == 4 && Padded(log[k].tasks) == Padded(l.tasks)
  }

  /** Each nonzero duration of a task, the last one the line gives, is the last one logged. */
  ghost predicate DurationsAreLogged(log: seq<Event>, l: PlanLine) {
    forall k: nat | IsLastOfTask(l, k) && l.durations[k] != 0.0 ::
      LastDuration(Durations(log), l.product - 1, l.tasks[k] - 1) == l.durations[k]
  }

  /** Some duration in the list is for the product slot and the post slot. */
  predicate Mentions(ds: seq<Duration>, i: nat, j: nat) {
    ds != [] &&
    var d := ds[|ds| - 1];
    (Index(PRODUCTS, d.product - 1) == Some(i) && Index(POSTS, d.post - 1) == Some(j)) || Mentions(ds[..|ds| - 1], i, j)
  }

  lemma {:induction false} LastOfBoth(a: seq<Duration>, b: seq<Duration>, i: nat, j: nat)
    ensures LastDuration(a + b, i, j) == LastDuration(if Mentions(b, i, j) then b else a, i, j)
  {
    hide Index;
    if b == [] {
      assert a + b == a;
    } else {
      var init := b[..|b| - 1];
      LastOfBoth(a, init, i, j);
      assert (a + b)[..|a + b| - 1] == a + init;
    }
  }

  lemma {:induction false} OneMoreMention(before: seq<Duration>, product: nat, task: nat, time: real, i: nat, j: nat)
    requires 1 <= product <= PRODUCTS && 1 <= task <= POSTS
    ensures Mentions(before + [Duration(product, task, time)], i, j) <==>
            (product == i + 1 && task == j + 1) || Mentions(before, i, j)
  {
    var ds := before + [Duration(product, task, time)];
    assert ds[..|ds| - 1] == before;
    assert Index(PRODUCTS, product - 1) == Some(product - 1) && Index(POSTS, task - 1) == Some(task - 1);
  }

  lemma {:induction false} LineDurationsStep(l: PlanLine, n: nat)
    requires LineOk(l) && 0 < n <= |l.tasks|
    ensures l.product <= PRODUCTS && 1 <= l.tasks[n - 1] <= POSTS
    ensures LineDurations(l, n) ==
            LineDurations(l, n - 1) + [Duration(l.product, l.tasks[n - 1], l.durations[n - 1])]
  {
  }

  /** A line mentions its tasks, and none of another product. */
  lemma {:induction false} LineMentions(l: PlanLine, n: nat, i: nat, j: nat, k: nat)
    requires LineOk(l) && n <= |l.tasks|
    ensures l.product != i + 1 ==> !Mentions(LineDurations(l, n), i, j)
    ensures l.product == i + 1 && k < n && l.tasks[k] == j + 1 ==> Mentions(LineDurations(l, n), i, j)
  {
    hide Mentions, LineDurations;
    if n == 0 {
      NothingMentioned(l, i, j);
    } else {
      LineDurationsStep(l, n);
      LineMentions(l, n - 1, i, j, k);
      OneMoreMention(LineDurations(l, n - 1), l.product, l.tasks[n - 1], l.durations[n - 1], i, j);
    }
  }

  lemma NothingMentioned(l: PlanLine, i: nat, j: nat)
    ensures !Mentions(LineDurations(l, 0), i, j)
  {
  }

  /** The duration of a task that no later task of its line repeats. */
  lemma {:induction false} LastOfLine(l: PlanLine, n: nat, k: nat)
    requires LineOk(l) && IsLastOfTask(l, k) && k < n <= |l.tasks|
    ensures LastDuration(LineDurations(l, n), l.product - 1, l.tasks[k] - 1) == l.durations[k]
  {
    if k < n - 1 { LastOfLine(l, n - 1, k); }
  }

  lemma {:induction false} LastOfPlan(lines: seq<PlanLine>, i: nat, k: nat)
    requires PlanOk(lines) && IsOnlyLine(lines, i) && IsLastOfTask(lines[i], k)
    ensures LastDuration(PlanDurations(lines), lines[i].product - 1, lines[i].tasks[k] - 1) == lines[i].durations[k]
  {
    hide LastDuration, LineDurations, Mentions;
    var l, before, last := lines[i], lines[..|lines| - 1], lines[|lines| - 1];
    var p, j := l.product - 1, l.tasks[k] - 1;
    OnlyLineIsGood(lines, i);
    assert PlanDurations(lines) == PlanDurations(before) + LineDurations(last, |last.tasks|);
    LineMentions(last, |last.tasks|, p, j, k);
    LastOfBoth(PlanDurations(before), LineDurations(last, |last.tasks|), p, j);
    if i == |lines| - 1 {
      assert l.tasks[k] == j + 1;
      LastOfLine(l, |l.tasks|, k);
    } else {
      LastOfPlan(before, i, k);
    }
  }

  lemma {:induction false} OnlyLineIsGood(lines: seq<PlanLine>, i: nat)
    requires PlanOk(lines) && IsOnlyLine(lines, i)
    ensures LineOk(lines[i]) && LineOk(lines[|lines| - 1]) && lines[i].product >= 1
    ensures i < |lines| - 1 ==> lines[|lines| - 1].product != lines[i].product && IsOnlyLine(lines[..|lines| - 1], i)
  {
  }

  lemma {:induction false} SlotCountsAppearances(log: seq<Event>, p: nat)
    requires 1 <= p <= PRODUCTS
    ensures EntryCount(Entered(log), p) <= NewCount(log, p - 1)
  {
    if log != [] {
      var before, e := log[..|log| - 1], log[|log| - 1];
      SlotCountsAppearances(before, p);
      if e.NewProduct? {
        assert Entered(log)[..|Entered(log)| - 1] == Entered(before);
      } else {
        assert Entered(log) == Entered(before);
      }
    }
  }

  /** The product of a line of its own appeared and left exactly as often as the line asks. */
  lemma {:induction false} CountsOfProduct(lines: seq<PlanLine>, log: seq<Event>, i: nat)
    requires Conforms(lines, log) && Accepted(log) && IsOnlyLine(lines, i) && lines[i].count != 0
    ensures EntryCount(Entered(log), lines[i].product) == ExitCount(log, lines[i].product) == lines[i].count
    ensures NewCount(log, lines[i].product - 1) == lines[i].count
  {
    hide Entered, EntryCount, NewCount, ExitCount, Runs, ExitsConform, EntriesConform, TimesConform;
    PlanOfLine(lines, i, lines[i].product);
    FewerExitsThanEntries(log, lines[i].product);
    SlotCountsAppearances(log, lines[i].product);
  }

  lemma {:induction false} TasksOfExit(lines: seq<PlanLine>, log: seq<Event>, i: nat, k: nat)
    requires Conforms(lines, log) && IsOnlyLine(lines, i) && lines[i].count != 0
    requires NoEmptyEvacuation(log)
    requires k < |log| && log[k].Exit? && log[k].product == lines[i].product
    ensures log[k].kind == 4 && Padded(log[k].tasks) == Padded(lines[i].tasks)
  {
    hide PlannedRow, Padded, Pending, PlannedCount, NewCount, ExitCount, EntriesConform, TimesConform;
    var l := lines[i];
    PlanOfLine(lines, i, l.product);
    NothingPending(log[..k]);
    assert ExitsConform(lines, log, l.product);
    assert [] + log[k].tasks == log[k].tasks;
    assert LeavingRow(log[..k], log[k])[1..] == PlannedRow(lines, l.product)[1..];
    assert ([l.product] + Padded(log[k].tasks))[1..] == Padded(log[k].tasks);
    assert ([l.product] + Padded(l.tasks))[1..] == Padded(l.tasks);
  }

  lemma {:induction false} DurationOfTask(lines: seq<PlanLine>, log: seq<Event>, i: nat, k: nat)
    requires Conforms(lines, log) && IsOnlyLine(lines, i) && lines[i].count != 0
    requires IsLastOfTask(lines[i], k) && lines[i].durations[k] != 0.0
    ensures LastDuration(Durations(log), lines[i].product - 1, lines[i].tasks[k] - 1) == lines[i].durations[k]
  {
    hide PlannedRow, PlanDurations, LastDuration, Durations, PlannedCount, NewCount, ExitCount;
    hide ExitsConform, EntriesConform;
    var l := lines[i];
    PlanOfLine(lines, i, l.product);
    LastOfPlan(lines, i, k);
    assert TimesConform(lines, log, l.product);
    assert TimeConforms(PlanDurations(lines), Durations(log), l.product, l.tasks[k] - 1);
  }

  lemma {:induction false} TasksOfExits(lines: seq<PlanLine>, log: seq<Event>, i: nat)
    requires Conforms(lines, log) && IsOnlyLine(lines, i) && lines[i].count != 0 && NoEmptyEvacuation(log)
    ensures LeavesWithTasks(log, lines[i])
  {
    var l := lines[i];
    hide Conforms, Padded, IsOnlyLine, NoEmptyEvacuation;
    forall k | 0 <= k < |log| && log[k].Exit? && log[k].product == l.product
      ensures log[k].kind == 4 && Padded(log[k].tasks) == Padded(l.tasks)
    {
      TasksOfExit(lines, log, i, k);
    }
  }

  lemma {:induction false} DurationsOfTasks(lines: seq<PlanLine>, log: seq<Event>, i: nat)
    requires Conforms(lines, log) && IsOnlyLine(lines, i) && lines[i].count != 0
    ensures DurationsAreLogged(log, lines[i])
  {
    var l := lines[i];
    hide Conforms, LastDuration, Durations, IsOnlyLine;
    forall k: nat | IsLastOfTask(l, k) && l.durations[k] != 0.0
      ensures LastDuration(Durations(log), l.product - 1, l.tasks[k] - 1) == l.durations[k]
    {
      DurationOfTask(lines, log, i, k);
    }
  }

  /** With one line for product p and no empty evacuation, a good verdict means that p appeared and left
      exactly as often as its line asks, each time with exactly the tasks of its line, and that each nonzero
      duration of a task, the last one its line gives, is the last one logged. */
  lemma GoodVerdictMeansProduction(lines: seq<PlanLine>, log: seq<Event>, i: nat)
    requires Conforms(lines, log) && Accepted(log) && IsOnlyLine(lines, i) && lines[i].count != 0
    requires NoEmptyEvacuation(log)
    ensures var l := lines[i];
      && EntryCount(Entered(log), l.product) == ExitCount(log, l.product) == l.count
      && LeavesWithTasks(log, l) && DurationsAreLogged(log, l)
  {
    hide *;
    CountsOfProduct(lines, log, i);
    TasksOfExits(lines, log, i);
    DurationsOfTasks(lines, log, i);
  }

  /** An empty evacuation at the end of an otherwise good log is reported exactly when product 6
      is not planned: the program looks up the count of product 0, and finds that of product 6. */
  lemma EmptyEvacuationReported(lines: seq<PlanLine>, log: seq<Event>, e: Event)
    requires Conforms(lines, log) && e.Exit? && e.product == 0
    ensures Conforms(lines, log + [e]) <==> PlannedCount(lines, PRODUCTS) != 0
  {
    var all := log + [e];
    OneLineMore(log, e);
    assert all[|log|] == e;
    assert forall k | 0 <= k < |log| :: all[k] == log[k] && all[..k] == log[..k];
    if PlannedCount(lines, PRODUCTS) != 0 {
      forall p: nat | 1 <= p <= PRODUCTS && PlannedCount(lines, p) != 0
        ensures ExitCount(all, p) == PlannedCount(lines, p)
        ensures ExitsConform(lines, all, p) && EntriesConform(all, p) && TimesConform(lines, all, p)
      {
        assert ExitsConform(lines, log, p) && EntriesConform(log, p) && TimesConform(lines, log, p);
      }
    }
  }

  // ----- splitting a field of the plan into words -----

  /** The maximal runs of characters other than the space. */
  function Words(s: string): seq<string> {
    if s == [] then []
    else
      var before, c := s[..|s| - 1], s[|s| - 1];
      if c == ' ' then Words(before)
      else if before == [] || before[|before| - 1] == ' ' then Words(before) + [[c]]
      else
        Extended(Words(before), c)
  }

  /** The last word with one more character. */
  function Extended(ws: seq<string>, c: char): seq<string> {
    if ws == [] then [[c]] else ws[|ws| - 1 := ws[|ws| - 1] + [c]]
  }

  function WithoutSpaces(s: string): string {
    if s == [] then []
    else WithoutSpaces(s[..|s| - 1]) + if s[|s| - 1] == ' ' then [] else [s[|s| - 1]]
  }

  function Together(ws: seq<string>): string {
    if ws == [] then [] else Together(ws[..|ws| - 1]) + ws[|ws| - 1]
  }

  predicate IsWord(w: string) { w != [] && ' ' !in w }

  /** The splitting loop, with its counter and its flag for a preceding space. */
  method SplitWords(field: string) returns (words: seq<string>)
    ensures words == Words(field)
    ensures (forall k | 0 <= k < |words| :: IsWord(words[k])) && Together(words) == WithoutSpaces(field)
  {
    words := [];
    var j, space := 0, true;
    for i := 0 to |field|
      invariant words == Words(field[..i]) && j == |words|
      invariant space <==> i == 0 || field[i - 1] == ' '
      invariant !space ==> words != []
    {
      assert field[..i + 1][..i] == field[..i];
      if field[i] != ' ' {
        if !space {
          words := words[j - 1 := words[j - 1] + [field[i]]];
        } else {
          words := words + [[field[i]]];
          j := j + 1;
          space := false;
        }
      } else {
        space := true;
      }
    }
    assert field[..|field|] == field;
    WordsAreTheField(field);
  }

  lemma {:induction false} WordAdded(ws: seq<string>, w: string)
    requires forall k | 0 <= k < |ws| :: IsWord(ws[k])
    ensures IsWord(w) ==> forall k | 0 <= k < |ws + [w]| :: IsWord((ws + [w])[k])
    ensures Together(ws + [w]) == Together(ws) + w
  {
    assert (ws + [w])[..|ws|] == ws;
  }

  lemma {:induction false} WordExtended(ws: seq<string>, c: char)
    requires ws != [] && c != ' ' && forall k | 0 <= k < |ws| :: IsWord(ws[k])
    ensures forall k | 0 <= k < |Extended(ws, c)| :: IsWord(Extended(ws, c)[k])
    ensures Together(Extended(ws, c)) == Together(ws) + [c]
  {
    var init, w := ws[..|ws| - 1], ws[|ws| - 1];
    assert ws == init + [w] && Extended(ws, c) == init + [w + [c]];
    WordAdded(init, w + [c]);
    assert Together(init) + (w + [c]) == Together(init) + w + [c];
  }

  lemma {:induction false} WithoutSpacesStep(before: string, c: char)
    ensures WithoutSpaces(before + [c]) == if c == ' ' then WithoutSpaces(before) else WithoutSpaces(before) + [c]
  {
    var s := before + [c];
    assert s[..|s| - 1] == before && s[|s| - 1] == c;
    assert WithoutSpaces(before) + [] == WithoutSpaces(before);
  }

  lemma {:induction false} NothingTogether()
    ensures Together(Words([])) == WithoutSpaces([]) && Words([]) == []
  {
  }

  /** The words are not empty and free of spaces, and together they are the field without its spaces. */
  lemma {:induction false} WordsAreTheField(s: string)
    ensures forall k | 0 <= k < |Words(s)| :: IsWord(Words(s)[k])
    ensures Together(Words(s)) == WithoutSpaces(s)
  {
    hide Words, Extended, Together, IsWord, WithoutSpaces;
    if s == [] {
      NothingTogether();
    } else {
      var before, c := s[..|s| - 1], s[|s| - 1];
      assert s == before + [c];
      WordsAreTheField(before);
      OneCharMore(before, c);
      WithoutSpacesStep(before, c);
      if c != ' ' {
        if before == [] || before[|before| - 1] == ' ' {
          SingleCharIsWord(c);
          WordAdded(Words(before), [c]);
        } else {
          WordsEndInOne(before);
          WordExtended(Words(before), c);
        }
      }
    }
  }

  lemma {:induction false} SingleCharIsWord(c: char)
    requires c != ' '
    ensures IsWord([c])
  {
  }

  /** A word is not split. With SpacesSeparate this leaves no other way to split a field. */
  lemma {:induction false} WordStaysWhole(w: string)
    requires IsWord(w)
    ensures Words(w) == [w]
  {
    var before, c := w[..|w| - 1], w[|w| - 1];
    assert w == before + [c] && c in w;
    OneCharMore(before, c);
    if before == [] {
      NoWords();
    } else {
      assert before[|before| - 1] in w;
      WordStaysWhole(before);
    }
  }

  /** Spaces only separate: the words of two fields put together with any further space between
      them are the words of the one followed by those of the other. */
  lemma {:induction false} SpacesSeparate(a: string, b: string)
    ensures Words(a + [' '] + b) == Words(a) + Words(b)
  {
    hide Words, Extended;
    if b == [] {
      OneCharMore(a, ' ');
      NoWords();
      assert a + [' '] + b == a + [' '];
    } else {
      var init, c := b[..|b| - 1], b[|b| - 1];
      var before := a + [' '] + init;
      SpacesSeparate(a, init);
      OneCharMore(before, c);
      OneCharMore(init, c);
      assert before + [c] == a + [' '] + b && init + [c] == b;
      assert before[|before| - 1] == if init == [] then ' ' else init[|init| - 1];
      if init != [] && init[|init| - 1] != ' ' { WordsEndInOne(init); }
      ExtendedBehind(Words(a), Words(init), c);
    }
  }

  lemma {:induction false} NoWords()
    ensures Words([]) == []
  {
  }

  lemma {:induction false} OneCharMore(s: string, c: char)
    ensures Words(s + [c]) ==
      if c == ' ' then Words(s)
      else if s == [] || s[|s| - 1] == ' ' then Words(s) + [[c]]
      else Extended(Words(s), c)
  {
    var t := s + [c];
    assert t[..|t| - 1] == s && t[|t| - 1] == c;
    hide Extended;
  }

  lemma {:induction false} ExtendedBehind(ws: seq<string>, vs: seq<string>, c: char)
    ensures (ws + vs) + [[c]] == ws + (vs + [[c]])
    ensures vs != [] ==> Extended(ws + vs, c) == ws + Extended(vs, c)
  {
  }

  lemma {:induction false} WordsEndInOne(s: string)
    requires s != [] && s[|s| - 1] != ' '
    ensures Words(s) != []
  {
  }
}
