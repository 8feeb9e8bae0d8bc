/** What the checker accepts and which verdict it gives, said line by line of the plan and the log. */
module CheckerMeaning {
  import opened Common
  import opened Production = Checker

  // ----- what is accepted -----

  /** A plan without error: products 1 to 6, tasks 1 to 8, at most five of them, a duration for each. */
  lemma PlanInPlainTerms(lines: seq<PlanLine>)
    ensures PlanOk(lines) <==> forall k | 0 <= k < |lines| ::
      (var l := lines[k];
       1 <= l.product <= 6 && |l.tasks| == |l.durations| <= 5 && forall i | 0 <= i < |l.tasks| :: 1 <= l.tasks[i] <= 8)
  {
  }

  /** No index is refused on line t: the product and the post are in the tables, no more than five tasks are
      held, and more of the product have appeared than left. */
  ghost predicate ReadableAt(log: seq<Event>, t: nat)
    requires t < |log|
  {
    match log[t]
    case NewProduct(p, _, _) => p <= 6
    case Exit(p, _, tasks, _) =>
      && |Pending(log[..t])| + |tasks| <= 5
      && (p != 0 ==>
            && p <= 6
            && |set u: nat | u < t && log[u].Exit? && log[u].product == p| <
               |set u: nat | u < t && log[u].NewProduct? && log[u].product == p|)
    case Tempo(d) => -5 <= d.product <= 6 && -7 <= d.post <= 8
    case _ => true
  }

  /** A log is read to its end exactly when every line of it is readable. */
  lemma AcceptedInPlainTerms(log: seq<Event>)
    ensures Accepted(log) <==> forall t: nat | t < |log| :: ReadableAt(log, t)
  {
    RunsInPlainTerms(log, |log|);
    assert log[..|log|] == log;
    DurationsInPlainTerms(log);
    hide Runs, Durations, DurationsInRange;
    assert forall t: nat | t < |log| ::
      ReadableAt(log, t) <==> IndexesOk(log, t) && (log[t].Tempo? ==> InTables(log[t].duration));
  }

  predicate InTables(d: Duration) { -5 <= d.product <= 6 && -7 <= d.post <= 8 }

  ghost predicate IndexesOk(log: seq<Event>, t: nat)
    requires t < |log|
  {
    log[t].Tempo? || ReadableAt(log, t)
  }

  lemma {:induction false} RunsInPlainTerms(log: seq<Event>, n: nat)
    requires n <= |log|
    ensures Runs(log[..n]) <==> forall t: nat | t < n :: IndexesOk(log, t)
  {
    if n > 0 {
      RunsInPlainTerms(log, n - 1);
      ReadableInPlainTerms(log, n - 1);
      assert log[..n][..n - 1] == log[..n - 1];
      hide Readable, IndexesOk;
    }
  }

  lemma {:induction false} ReadableInPlainTerms(log: seq<Event>, t: nat)
    requires t < |log|
    ensures Readable(log[..t], log[t]) <==> IndexesOk(log, t)
  {
    hide Pending, ExitCount, EntryCount, Entered;
    if log[t].Exit? {
      var p, before := log[t].product, log[..t];
      ExitsAreCounted(before, p);
      AppearancesAreCounted(before, p);
      assert (set u: nat | u < |before| && Leaves(before, p, u)) ==
        (set u: nat | u < t && log[u].Exit? && log[u].product == p);
      assert (set u: nat | u < |before| && Appears(before, p, u)) ==
        (set u: nat | u < t && log[u].NewProduct? && log[u].product == p);
    }
  }

  lemma {:induction false} DurationsInPlainTerms(log: seq<Event>)
    ensures DurationsInRange(Durations(log)) <==>
            forall t: nat | t < |log| && log[t].Tempo? :: InTables(log[t].duration)
  {
    if log != [] {
      var before, e := log[..|log| - 1], log[|log| - 1];
      DurationsInPlainTerms(before);
      hide Durations;
      DurationsStep(before, e);
      assert log == before + [e];
      if e.Tempo? { OneDurationMore(Durations(before), e.duration); }
      assert forall t: nat | t < |before| :: before[t] == log[t];
    }
  }

  lemma DurationsStep(log: seq<Event>, e: Event)
    ensures Durations(log + [e]) == if e.Tempo? then Durations(log) + [e.duration] else Durations(log)
  {
    assert (log + [e])[..|log|] == log;
  }

  lemma OneDurationMore(ds: seq<Duration>, d: Duration)
    ensures DurationsInRange(ds + [d]) <==> DurationsInRange(ds) && InTables(d)
  {
    var all := ds + [d];
    assert all[|ds|] == d && forall k | 0 <= k < |ds| :: all[k] == ds[k];
  }

  /** The tasks of the exits in a part of the log, one after the other. */
  function TasksOf(events: seq<Event>): seq<int> {
    if events == [] then []
    else
      var e := events[|events| - 1];
      TasksOf(events[..|events| - 1]) + if e.Exit? then e.tasks else []
  }

  /** The tasks that are held are those of the evacuations since the last product left. */
  lemma {:induction false} PendingInPlainTerms(log: seq<Event>, s: nat)
    requires s <= |log| && (s == 0 || (log[s - 1].Exit? && log[s - 1].product != 0))
    requires forall t | s <= t < |log| && log[t].Exit? :: log[t].product == 0
    ensures Pending(log) == TasksOf(log[s..])
  {
    if s == |log| {
      assert log[s..] == [];
    } else {
      var before, e := log[..|log| - 1], log[|log| - 1];
      PendingInPlainTerms(before, s);
      assert log[s..][..|log| - s - 1] == before[s..];
    }
  }

  // ----- what conforms -----

  /** Every product has at most one line. */
  ghost predicate OnePerProduct(lines: seq<PlanLine>) {
    forall i: nat | i < |lines| :: IsOnlyLine(lines, i)
  }

  /** Line t is an appearance that is counted for product p: code 0 is counted for product 6. */
  ghost predicate CountedFor(log: seq<Event>, p: int, t: nat) {
    t < |log| && log[t].NewProduct? && (log[t].product == p || (p == 6 && log[t].product == 0))
  }

  /** The same five tasks, 0 standing for none. */
  ghost predicate SameTasks(a: seq<int>, b: seq<int>) {
    forall i | 0 <= i < 5 :: (if i < |a| then a[i] else 0) == if i < |b| then b[i] else 0
  }

  /** Line t logs a duration of post q for product p, as the program's indexing finds it. */
  ghost predicate Logs(log: seq<Event>, p: int, q: int, t: nat) {
    && t < |log| && log[t].Tempo?
    && (log[t].duration.product == p || log[t].duration.product == p - 6)
    && (log[t].duration.post == q || log[t].duration.post == q - 8)
  }

  /** The last duration logged is s. */
  ghost predicate LastLogged(log: seq<Event>, p: int, q: int, s: real) {
    exists t: nat :: Logs(log, p, q, t) && log[t].duration.seconds == s && forall u: nat | t < u :: !Logs(log, p, q, u)
  }

  /** The log does what the line asks for. */
  ghost predicate IsProduced(l: PlanLine, log: seq<Event>)
    requires LineOk(l)
  {
    && |set t: nat | t < |log| && CountedFor(log, l.product, t)| == l.count
    && (l.count != 0 ==>
          && |set t: nat | t < |log| && Leaves(log, l.product, t)| == l.count
          && (forall t: nat | Leaves(log, l.product, t) ::
                log[t].kind == 4 && SameTasks(Pending(log[..t]) + log[t].tasks, l.tasks))
          && (forall t: nat | CountedFor(log, l.product, t) :: log[t].kind == 4)
          && (forall k: nat | IsLastOfTask(l, k) && l.durations[k] != 0.0 ::
                LastLogged(log, l.product, l.tasks[k], l.durations[k])))
  }

  /** No fault, evacuations without a product only where product 6 is planned, no appearance of a product
      without a line. */
  ghost predicate NothingElse(lines: seq<PlanLine>, log: seq<Event>) {
    && (forall t: nat | t < |log| :: !log[t].Fault?)
    && (forall t: nat | t < |log| && log[t].Exit? && log[t].product == 0 ::
          exists i: nat :: i < |lines| && lines[i].product == 6 && lines[i].count != 0)
    && (forall p: nat, t: nat | 1 <= p <= 6 && CountedFor(log, p, t) ::
          exists i: nat :: i < |lines| && lines[i].product == p)
  }

  lemma {:induction false} CountedAreCounted(log: seq<Event>, p: nat)
    requires 1 <= p <= 6
    ensures NewCount(log, p - 1) == |set t: nat | t < |log| && CountedFor(log, p, t)|
  {
    var all := set t: nat | t < |log| && CountedFor(log, p, t);
    if log == [] {
      assert all == {};
    } else {
      var before, n := log[..|log| - 1], |log| - 1;
      var earlier := set t: nat | t < n && CountedFor(before, p, t);
      CountedAreCounted(before, p);
      OneIndexMore(earlier, all, n, CountedFor(log, p, n));
    }
  }

  /** Adding a line to the log either gives the last duration of the slot or leaves it. */
  lemma {:induction false} LastLoggedIs(log: seq<Event>, p: nat, q: nat, s: real)
    requires 1 <= p <= 6 && 1 <= q <= 8 && s != 0.0
    ensures LastDuration(Durations(log), p - 1, q - 1) == s <==> LastLogged(log, p, q, s)
  {
    hide Durations, LastDuration;
    if log == [] {
      NoDurations(p - 1, q - 1);
    } else {
      var before, e, n := log[..|log| - 1], log[|log| - 1], |log| - 1;
      assert log == before + [e];
      LastLoggedIs(before, p, q, s);
      LastDurationStep(before, e, p, q);
      LastLoggedStep(before, e, p, q, s);
    }
  }

  lemma NoDurations(i: nat, j: nat)
    ensures LastDuration(Durations([]), i, j) == 0.0
  {
  }

  lemma LastDurationStep(log: seq<Event>, e: Event, p: nat, q: nat)
    requires 1 <= p <= 6 && 1 <= q <= 8
    ensures LastDuration(Durations(log + [e]), p - 1, q - 1) ==
            if Logs(log + [e], p, q, |log|) then e.duration.seconds else LastDuration(Durations(log), p - 1, q - 1)
  {
    hide Durations;
    DurationsStep(log, e);
    if e.Tempo? { assert (Durations(log) + [e.duration])[..|Durations(log)|] == Durations(log); }
  }

  lemma LastLoggedStep(log: seq<Event>, e: Event, p: int, q: int, s: real)
    ensures LastLogged(log + [e], p, q, s) <==>
            if Logs(log + [e], p, q, |log|) then e.duration.seconds == s else LastLogged(log, p, q, s)
  {
    var all, n := log + [e], |log|;
    assert forall t: nat | t < n :: Logs(all, p, q, t) <==> Logs(log, p, q, t);
    assert forall t: nat | t > n :: !Logs(all, p, q, t);
    if Logs(all, p, q, n) {
      if LastLogged(all, p, q, s) {
        var t: nat :| Logs(all, p, q, t) && all[t].duration.seconds == s &&
          forall u: nat | t < u :: !Logs(all, p, q, u);
        assert t == n;
      }
    } else {
      if LastLogged(all, p, q, s) {
        var t: nat :| Logs(all, p, q, t) && all[t].duration.seconds == s &&
          forall u: nat | t < u :: !Logs(all, p, q, u);
        assert Logs(log, p, q, t) && log[t].duration.seconds == s;
        assert forall u: nat | t < u :: !Logs(log, p, q, u);
      }
      if LastLogged(log, p, q, s) {
        var t: nat :| Logs(log, p, q, t) && log[t].duration.seconds == s &&
          forall u: nat | t < u :: !Logs(log, p, q, u);
        assert Logs(all, p, q, t) && all[t].duration.seconds == s;
      }
    }
  }

  // ----- the durations of the plan -----

  lemma {:induction false} MentionsBoth(a: seq<Duration>, b: seq<Duration>, i: nat, j: nat)
    ensures Mentions(a + b, i, j) <==> Mentions(a, i, j) || Mentions(b, i, j)
  {
    hide Index;
    if b == [] {
      assert a + b == a;
    } else {
      MentionsBoth(a, b[..|b| - 1], i, j);
      assert (a + b)[..|a + b| - 1] == a + b[..|b| - 1];
    }
  }

  lemma {:induction false} NotMentionedIsZero(ds: seq<Duration>, i: nat, j: nat)
    requires !Mentions(ds, i, j)
    ensures LastDuration(ds, i, j) == 0.0
  {
    hide Index;
    if ds != [] { NotMentionedIsZero(ds[..|ds| - 1], i, j); }
  }

  lemma {:induction false} OtherTaskIsNotMentioned(l: PlanLine, n: nat, i: nat, j: nat)
    requires LineOk(l) && n <= |l.tasks| && j + 1 !in l.tasks[..n]
    ensures !Mentions(LineDurations(l, n), i, j)
  {
    hide Mentions, LineDurations;
    if n == 0 {
      NothingMentioned(l, i, j);
    } else {
      LineDurationsStep(l, n);
      assert l.tasks[..n] == l.tasks[..n - 1] + [l.tasks[n - 1]];
      OtherTaskIsNotMentioned(l, n - 1, i, j);
      OneMoreMention(LineDurations(l, n - 1), l.product, l.tasks[n - 1], l.durations[n - 1], i, j);
    }
  }

  /** A plan mentions no task for a product that is not in the line of the product. */
  lemma {:induction false} OtherTaskIsNotPlanned(lines: seq<PlanLine>, p: nat, j: nat)
    requires PlanOk(lines) && 1 <= p
    requires forall k | 0 <= k < |lines| && lines[k].product == p :: j + 1 !in lines[k].tasks
    ensures !Mentions(PlanDurations(lines), p - 1, j)
  {
    if lines != [] {
      var before, l := lines[..|lines| - 1], lines[|lines| - 1];
      OtherTaskIsNotPlanned(before, p, j);
      hide Mentions, LineDurations;
      MentionsBoth(PlanDurations(before), LineDurations(l, |l.tasks|), p - 1, j);
      if l.product == p {
        assert l.tasks[..|l.tasks|] == l.tasks;
        OtherTaskIsNotMentioned(l, |l.tasks|, p - 1, j);
      } else {
        LineMentions(l, |l.tasks|, p - 1, j, 0);
      }
    }
  }

  lemma {:induction false} LastOfTask(l: PlanLine, task: int, n: nat) returns (k: nat)
    requires LineOk(l) && n <= |l.tasks| && task in l.tasks[..n]
    requires forall m | n <= m < |l.tasks| :: l.tasks[m] != task
    ensures IsLastOfTask(l, k) && l.tasks[k] == task
  {
    assert l.tasks[..n] == l.tasks[..n - 1] + [l.tasks[n - 1]];
    if l.tasks[n - 1] == task { k := n - 1; } else { k := LastOfTask(l, task, n - 1); }
  }

  lemma {:induction false} TimesInPlainTerms(lines: seq<PlanLine>, log: seq<Event>, i: nat)
    requires PlanOk(lines) && IsOnlyLine(lines, i)
    ensures LineOk(lines[i])
    ensures TimesConform(lines, log, lines[i].product) <==>
            forall k: nat | IsLastOfTask(lines[i], k) && lines[i].durations[k] != 0.0 ::
              LastLogged(log, lines[i].product, lines[i].tasks[k], lines[i].durations[k])
  {
    var l := lines[i];
    var p: nat := l.product;
    hide PlanDurations, LastDuration, Durations, LastLogged, Mentions;
    if TimesConform(lines, log, p) {
      forall k: nat | IsLastOfTask(l, k) && l.durations[k] != 0.0 ensures LastLogged(log, p, l.tasks[k], l.durations[k])
      {
        LastOfPlan(lines, i, k);
        assert TimeConforms(PlanDurations(lines), Durations(log), p, l.tasks[k] - 1);
        LastLoggedIs(log, p, l.tasks[k], l.durations[k]);
      }
    }
    if forall k: nat | IsLastOfTask(l, k) && l.durations[k] != 0.0 :: LastLogged(log, p, l.tasks[k], l.durations[k]) {
      forall j: nat | j < POSTS ensures TimeConforms(PlanDurations(lines), Durations(log), p, j) {
        if j + 1 in l.tasks {
          assert l.tasks[..|l.tasks|] == l.tasks;
          var k := LastOfTask(l, j + 1, |l.tasks|);
          LastOfPlan(lines, i, k);
          if l.durations[k] != 0.0 { LastLoggedIs(log, p, j + 1, l.durations[k]); }
        } else {
          OtherTaskIsNotPlanned(lines, p, j);
          NotMentionedIsZero(PlanDurations(lines), p - 1, j);
        }
      }
    }
  }

  // ----- the verdict -----

  lemma RowsInPlainTerms(p: nat, held: seq<int>, tasks: seq<int>)
    ensures [p] + Padded(held) == [p] + Padded(tasks) <==> SameTasks(held, tasks)
  {
    assert ([p] + Padded(held))[1..] == Padded(held) && ([p] + Padded(tasks))[1..] == Padded(tasks);
    if SameTasks(held, tasks) {
      assert Padded(held) == Padded(tasks);
    }
    if Padded(held) == Padded(tasks) {
      forall i | 0 <= i < 5
        ensures (if i < |held| then held[i] else 0) == if i < |tasks| then tasks[i] else 0
      {
        assert Padded(held)[i] == Padded(tasks)[i];
      }
    }
  }

  lemma {:induction false} ExitsInPlainTerms(lines: seq<PlanLine>, log: seq<Event>, i: nat)
    requires PlanOk(lines) && IsOnlyLine(lines, i)
    ensures LineOk(lines[i])
    ensures ExitsConform(lines, log, lines[i].product) <==>
            forall t: nat | Leaves(log, lines[i].product, t) ::
              log[t].kind == 4 && SameTasks(Pending(log[..t]) + log[t].tasks, lines[i].tasks)
  {
    var l := lines[i];
    var p: nat := l.product;
    PlanOfLine(lines, i, p);
    hide PlannedRow, Padded, Pending, SameTasks;
    forall t: nat | Leaves(log, p, t)
      ensures LeavingRow(log[..t], log[t]) == PlannedRow(lines, p) <==>
              SameTasks(Pending(log[..t]) + log[t].tasks, l.tasks)
    {
      RowsInPlainTerms(p, Pending(log[..t]) + log[t].tasks, l.tasks);
    }
    hide LeavingRow;
    if ExitsConform(lines, log, p) {
      forall t: nat | Leaves(log, p, t)
        ensures log[t].kind == 4 && SameTasks(Pending(log[..t]) + log[t].tasks, l.tasks)
      {
      }
    }
  }

  lemma EntriesInPlainTerms(log: seq<Event>, p: nat)
    requires 1 <= p <= 6
    ensures EntriesConform(log, p) <==> forall t: nat | CountedFor(log, p, t) :: log[t].kind == 4
  {
    assert forall t: nat | t < |log| && log[t].NewProduct? ::
      Slot(log[t].product) == Some(p - 1) <==> CountedFor(log, p, t);
  }

  /** What conformity asks of a product. */
  ghost predicate ProductConforms(lines: seq<PlanLine>, log: seq<Event>, p: nat)
    requires PlanOk(lines) && p > 0
  {
    && NewCount(log, p - 1) == PlannedCount(lines, p)
    && (PlannedCount(lines, p) != 0 ==>
          && ExitCount(log, p) == PlannedCount(lines, p)
          && ExitsConform(lines, log, p) && EntriesConform(log, p) && TimesConform(lines, log, p))
  }

  lemma {:induction false} LineInPlainTerms(lines: seq<PlanLine>, log: seq<Event>, i: nat)
    requires PlanOk(lines) && IsOnlyLine(lines, i)
    ensures LineOk(lines[i])
    ensures ProductConforms(lines, log, lines[i].product) <==> IsProduced(lines[i], log)
  {
    var p: nat := lines[i].product;
    hide ExitsConform, EntriesConform, TimesConform, NewCount, ExitCount, PlannedCount, PlannedRow, Leaves, CountedFor,
      SameTasks, Pending, LastLogged, IsLastOfTask;
    PlanOfLine(lines, i, p);
    CountedAreCounted(log, p);
    ExitsAreCounted(log, p);
    ExitsInPlainTerms(lines, log, i);
    EntriesInPlainTerms(log, p);
    TimesInPlainTerms(lines, log, i);
  }

  lemma {:induction false} UnplannedInPlainTerms(lines: seq<PlanLine>, log: seq<Event>, p: nat)
    requires PlanOk(lines) && 1 <= p <= 6 && forall i | 0 <= i < |lines| :: lines[i].product != p
    ensures ProductConforms(lines, log, p) <==> forall t: nat :: !CountedFor(log, p, t)
  {
    hide NewCount, PlannedCount, PlannedEntry;
    NoPlan(lines, p);
    CountedAreCounted(log, p);
    var all := set t: nat | t < |log| && CountedFor(log, p, t);
    if forall t: nat :: !CountedFor(log, p, t) { assert all == {}; }
    assert forall t: nat | CountedFor(log, p, t) :: t in all;
  }

  lemma {:induction false} PlannedInPlainTerms(lines: seq<PlanLine>, p: int)
    requires OnePerProduct(lines)
    ensures PlannedCount(lines, p) != 0 <==>
            exists i: nat :: i < |lines| && lines[i].product == p && lines[i].count != 0
  {
    hide PlannedCount, PlannedEntry;
    if i: nat :| i < |lines| && lines[i].product == p {
      assert IsOnlyLine(lines, i);
      CountOfLine(lines, i);
    } else {
      NoPlan(lines, p);
    }
  }

  lemma {:induction false} CountOfLine(lines: seq<PlanLine>, i: nat)
    requires IsOnlyLine(lines, i)
    ensures PlannedCount(lines, lines[i].product) == lines[i].count
  {
    if i < |lines| - 1 { CountOfLine(lines[..|lines| - 1], i); }
  }

  lemma {:induction false} ProductInPlainTerms(lines: seq<PlanLine>, log: seq<Event>, p: nat)
    requires PlanOk(lines) && OnePerProduct(lines) && 1 <= p <= 6
    ensures ProductConforms(lines, log, p) <==>
      && (forall i: nat | i < |lines| && lines[i].product == p :: LineOk(lines[i]) && IsProduced(lines[i], log))
      && ((forall i: nat | i < |lines| :: lines[i].product != p) ==> forall t: nat :: !CountedFor(log, p, t))
  {
    hide ProductConforms, IsProduced, CountedFor;
    if i: nat :| i < |lines| && lines[i].product == p {
      assert IsOnlyLine(lines, i);
      LineInPlainTerms(lines, log, i);
      assert forall j: nat | j < |lines| && lines[j].product == p :: j == i;
    } else {
      UnplannedInPlainTerms(lines, log, p);
    }
  }

  /** The verdict: a log conforms to a plan with one line for a product exactly when it does for every line what
      this asks for, and nothing else. */
  lemma {:induction false} ConformityInPlainTerms(lines: seq<PlanLine>, log: seq<Event>)
    requires PlanOk(lines) && OnePerProduct(lines)
    ensures Conforms(lines, log) <==>
            NothingElse(lines, log) && forall i: nat | i < |lines| :: LineOk(lines[i]) && IsProduced(lines[i], log)
  {
    hide Conforms, IsProduced, ProductConforms, CountedFor, OnePerProduct, LineOk;
    ConformsByProduct(lines, log);
    PlannedInPlainTerms(lines, 6);
    LinesAreInRange(lines);
    forall p: nat | 1 <= p <= 6
      ensures ProductConforms(lines, log, p) <==>
        && (forall i: nat | i < |lines| && lines[i].product == p :: LineOk(lines[i]) && IsProduced(lines[i], log))
        && ((forall i: nat | i < |lines| :: lines[i].product != p) ==> forall t: nat :: !CountedFor(log, p, t))
    {
      ProductInPlainTerms(lines, log, p);
    }
    if Conforms(lines, log) {
      forall i: nat | i < |lines| ensures LineOk(lines[i]) && IsProduced(lines[i], log) {
        var p: nat := lines[i].product;
        assert ProductConforms(lines, log, p);
      }
      forall p: nat, t: nat | 1 <= p <= 6 && CountedFor(log, p, t)
        ensures exists i: nat :: i < |lines| && lines[i].product == p
      {
        assert ProductConforms(lines, log, p);
      }
    }
  }

  lemma LinesAreInRange(lines: seq<PlanLine>)
    requires PlanOk(lines)
    ensures forall i: nat | i < |lines| :: LineOk(lines[i]) && 1 <= lines[i].product <= 6
  {
  }

  lemma ConformsByProduct(lines: seq<PlanLine>, log: seq<Event>)
    requires PlanOk(lines)
    ensures Conforms(lines, log) <==>
      && (forall t: nat | t < |log| :: !log[t].Fault?)
      && (forall t: nat | t < |log| && log[t].Exit? && log[t].product == 0 :: PlannedCount(lines, 6) != 0)
      && (forall p: nat | 1 <= p <= 6 :: ProductConforms(lines, log, p))
  {
    hide NewCount, ExitCount, PlannedCount, ExitsConform, EntriesConform, TimesConform;
    if Conforms(lines, log) {
      forall p: nat | 1 <= p <= 6 ensures ProductConforms(lines, log, p) {
        assert NewCount(log, p - 1) == PlannedCount(lines, p);
      }
    }
    if forall p: nat | 1 <= p <= 6 :: ProductConforms(lines, log, p) {
      forall p: nat | 1 <= p <= PRODUCTS
        ensures NewCount(log, p - 1) == PlannedCount(lines, p)
        ensures PlannedCount(lines, p) != 0 ==>
          && ExitCount(log, p) == PlannedCount(lines, p)
          && ExitsConform(lines, log, p) && EntriesConform(log, p) && TimesConform(lines, log, p)
      {
        assert ProductConforms(lines, log, p);
      }
    }
  }
}
