/** The statistics page: totals and rounded averages over the caller's
    workout log, the log grouped by exercise name, and the five most frequent
    exercises. */
module Stats {
  import opened Common
  import opened Seqs
  import WorkoutsApi

  /** A log entry as the page receives it from the GET handler. */
  type Workout = WorkoutsApi.Workout

  // ---------------------------------------------------------------------------
  // Totals and averages

  /** The minutes of all logged workouts added up, in log order. */
  function TotalDuration(ws: seq<Workout>): int {
    if ws == [] then 0 else TotalDuration(ws[..|ws| - 1]) + ws[|ws| - 1].duration
  }

  /** The calories of all logged workouts added up, in log order. */
  function TotalCalories(ws: seq<Workout>): int {
    if ws == [] then 0 else TotalCalories(ws[..|ws| - 1]) + ws[|ws| - 1].calories
  }

  /** Adding up from the first entry gives the same totals: the first
      entry's minutes and calories plus those of the rest. */
  lemma TotalsFromFront(ws: seq<Workout>)
    requires ws != []
    ensures TotalDuration(ws) == ws[0].duration + TotalDuration(ws[1..])
    ensures TotalCalories(ws) == ws[0].calories + TotalCalories(ws[1..])
  {
    assert ws == [ws[0]] + ws[1..];
    TotalsConcat([ws[0]], ws[1..]);
    assert [ws[0]][..0] == [];
  }

  /** The totals of a log are the totals of its parts. */
  lemma {:induction false} TotalsConcat(a: seq<Workout>, b: seq<Workout>)
    ensures TotalDuration(a + b) == TotalDuration(a) + TotalDuration(b)
    ensures TotalCalories(a + b) == TotalCalories(a) + TotalCalories(b)
    decreases |b|
  {
    if b == [] {
      assert a + b == a;
    } else {
      var b' := b[..|b| - 1];
      assert (a + b)[..|a + b| - 1] == a + b';
      assert (a + b)[|a + b| - 1] == b[|b| - 1];
      TotalsConcat(a, b');
    }
  }

  /** The rounded mean of an empty log is 0; otherwise it is the integer nearest to the
      quotient, halves rounded up. */
  function Average(total: int, count: nat): (r: int)
    ensures count == 0 ==> r == 0
    ensures count > 0 ==> 2 * r * count <= 2 * total + count < 2 * r * count + 2 * count
  {
    if count > 0 then (2 * total + count) / (2 * count) else 0
  }

  // ---------------------------------------------------------------------------
  // Grouping by exercise name

  /** The accumulated count, minutes and calories of one exercise name. */
  datatype Totals = Totals(count: nat, duration: int, calories: int)

  /** The accumulator object: its own keys in the order they were created,
      and the entry of each key. */
  datatype Grouping = Grouping(names: seq<string>, table: map<string, Totals>)

  const Empty := Grouping([], map[])

  /** Adding one workout to the accumulator: a name seen for the first time
      gets an entry, then the entry's count goes up by one and the workout's
      minutes and calories are added. */
  function Record(g: Grouping, w: Workout): Grouping {
    var name := w.exercise;
    if name in g.table then
      var t := g.table[name];
      Grouping(g.names, g.table[name := Totals(t.count + 1, t.duration + w.duration, t.calories + w.calories)])
    else
      Grouping(g.names + [name], g.table[name := Totals(1, w.duration, w.calories)])
  }

  /** The intended grouping: every workout counted under its own name. The
      names are listed once each and are exactly the keys of the table. */
  function GroupByExercise(ws: seq<Workout>): (g: Grouping)
    ensures forall n :: n in g.table <==> n in g.names
    ensures forall i, j :: 0 <= i < j < |g.names| ==> g.names[i] != g.names[j]
  {
    if ws == [] then Empty else Record(GroupByExercise(ws[..|ws| - 1]), ws[|ws| - 1])
  }

  /** The page's reduce over the log, as written, on one accumulator updated
      in place. An entry is created when the name finds nothing on the
      accumulator, which is never the case for the name of an inherited
      member; the updates that follow reach the table only through an own
      entry. */
  method ExerciseStats(ws: seq<Workout>) returns (names: seq<string>, table: map<string, Totals>)
    ensures Grouping(names, table) == GroupAsWritten(ws)
    ensures (forall i :: 0 <= i < |ws| ==> ws[i].exercise !in InheritedNames) ==>
      Grouping(names, table) == GroupByExercise(ws)
  {
    names := [];
    table := map[];
    var i := 0;
    while i < |ws|
      invariant 0 <= i <= |ws|
      invariant Grouping(names, table) == GroupAsWritten(ws[..i])
    {
      var w := ws[i];
      var name := w.exercise;
      var found := name in table || name in InheritedNames;
      if !found {
        table := table[name := Totals(0, 0, 0)];
        names := names + [name];
      }
      if name in table {
        var t := table[name];
        table := table[name := Totals(t.count + 1, t.duration + w.duration, t.calories + w.calories)];
      }
      assert Grouping(names, table) == RecordAsWritten(GroupAsWritten(ws[..i]), w);
      assert ws[..i + 1][..i] == ws[..i];
      i := i + 1;
    }
    assert ws[..|ws|] == ws;
    if forall k :: 0 <= k < |ws| ==> ws[k].exercise !in InheritedNames {
      AsWrittenAgrees(ws);
    }
  }

  function Named(n: string): Workout -> bool {
    (w: Workout) => w.exercise == n
  }

  /** The entry of `n` in `g` accounts for exactly the workouts `sub`. */
  predicate Accounts(g: Grouping, n: string, sub: seq<Workout>) {
    && (n in g.table ==> |sub| >= 1 && g.table[n] == Totals(|sub|, TotalDuration(sub), TotalCalories(sub)))
    && (n !in g.table ==> sub == [])
  }

  lemma RecordAccounts(g: Grouping, w: Workout, n: string, sub: seq<Workout>)
    requires Accounts(g, n, sub)
    ensures Accounts(Record(g, w), n, sub + if w.exercise == n then [w] else [])
  {
    if w.exercise == n {
      assert (sub + [w])[..|sub + [w]| - 1] == sub;
    } else {
      assert sub + [] == sub;
    }
  }

  /** Every workout lands in exactly the group of its name: a group holds the
      count and the totals of the workouts with that name, at least one of
      them, and a name without a group names no workout. */
  lemma {:induction false} GroupTotals(ws: seq<Workout>, n: string)
    ensures Accounts(GroupByExercise(ws), n, Filter(ws, Named(n)))
    decreases |ws|
  {
    if ws != [] {
      var init, w := ws[..|ws| - 1], ws[|ws| - 1];
      var g, sub := GroupByExercise(init), Filter(init, Named(n));
      var added := if w.exercise == n then [w] else [];
      assert Accounts(Record(g, w), n, sub + added) by {
        GroupTotals(init, n);
        RecordAccounts(g, w, n, sub);
      }
      assert Filter(ws, Named(n)) == sub + added by {
        assert ws == init + [w];
        FilterSnoc(init, w, Named(n));
      }
      assert GroupByExercise(ws) == Record(g, w);
    }
  }

  // ---------------------------------------------------------------------------
  // Conservation

  function CountOf(t: Totals): int { t.count }
  function DurationOf(t: Totals): int { t.duration }
  function CaloriesOf(t: Totals): int { t.calories }

  /** A field summed over the entries of the listed names. */
  function SumField(names: seq<string>, table: map<string, Totals>, f: Totals -> int): int
    requires forall i :: 0 <= i < |names| ==> names[i] in table
  {
    if names == [] then 0
    else SumField(names[..|names| - 1], table, f) + f(table[names[|names| - 1]])
  }

  /** Changing the entry of an unlisted name does not change the sum. */
  lemma {:induction false} SumFieldFrame(names: seq<string>, table: map<string, Totals>, f: Totals -> int, n: string, t: Totals)
    requires forall i :: 0 <= i < |names| ==> names[i] in table
    requires n !in names
    ensures SumField(names, table[n := t], f) == SumField(names, table, f)
  {
    if names != [] {
      SumFieldFrame(names[..|names| - 1], table, f, n, t);
    }
  }

  /** Changing the entry of a name listed once changes the sum by the change
      of that entry. */
  lemma {:induction false} SumFieldUpdate(names: seq<string>, table: map<string, Totals>, f: Totals -> int, n: string, t: Totals)
    requires forall i :: 0 <= i < |names| ==> names[i] in table
    requires forall i, j :: 0 <= i < j < |names| ==> names[i] != names[j]
    requires n in names
    ensures SumField(names, table[n := t], f) == SumField(names, table, f) - f(table[n]) + f(t)
  {
    var init, last := names[..|names| - 1], names[|names| - 1];
    if last == n {
      assert n !in init;
      SumFieldFrame(init, table, f, n, t);
    } else {
      assert n in init;
      SumFieldUpdate(init, table, f, n, t);
    }
  }

  /** Adding a workout to a group adds one to the summed counts and its
      minutes and calories to the summed totals. */
  lemma RecordConserves(g: Grouping, w: Workout)
    requires forall n :: n in g.table <==> n in g.names
    requires forall i, j :: 0 <= i < j < |g.names| ==> g.names[i] != g.names[j]
    ensures var g' := Record(g, w);
      && (forall i :: 0 <= i < |g'.names| ==> g'.names[i] in g'.table)
      && SumField(g'.names, g'.table, CountOf) == SumField(g.names, g.table, CountOf) + 1
      && SumField(g'.names, g'.table, DurationOf) == SumField(g.names, g.table, DurationOf) + w.duration
      && SumField(g'.names, g'.table, CaloriesOf) == SumField(g.names, g.table, CaloriesOf) + w.calories
  {
    var n := w.exercise;
    var g' := Record(g, w);
    if n in g.table {
      var t := g'.table[n];
      SumFieldUpdate(g.names, g.table, CountOf, n, t);
      SumFieldUpdate(g.names, g.table, DurationOf, n, t);
      SumFieldUpdate(g.names, g.table, CaloriesOf, n, t);
    } else {
      var t := g'.table[n];
      assert g'.names[..|g'.names| - 1] == g.names;
      SumFieldFrame(g.names, g.table, CountOf, n, t);
      SumFieldFrame(g.names, g.table, DurationOf, n, t);
      SumFieldFrame(g.names, g.table, CaloriesOf, n, t);
    }
  }

  /** The group counts add up to the number of workouts, and the group
      minutes and calories to the page's totals. */
  lemma {:induction false} GroupingConserves(ws: seq<Workout>)
    ensures var g := GroupByExercise(ws);
      && SumField(g.names, g.table, CountOf) == |ws|
      && SumField(g.names, g.table, DurationOf) == TotalDuration(ws)
      && SumField(g.names, g.table, CaloriesOf) == TotalCalories(ws)
    decreases |ws|
  {
    if ws != [] {
      var init, w := ws[..|ws| - 1], ws[|ws| - 1];
      var g0 := GroupByExercise(init);
      assert GroupByExercise(ws) == Record(g0, w);
      assert TotalDuration(ws) == TotalDuration(init) + w.duration;
      assert TotalCalories(ws) == TotalCalories(init) + w.calories;
      GroupingConserves(init);
      RecordConserves(g0, w);
    }
  }

  // ---------------------------------------------------------------------------
  // The ranking

  /** `Object.entries` of the accumulator, in key-creation order. */
  function Entries(g: Grouping): (r: seq<(string, Totals)>)
    requires forall i :: 0 <= i < |g.names| ==> g.names[i] in g.table
    ensures |r| == |g.names|
    ensures forall i :: 0 <= i < |r| ==> r[i] == (g.names[i], g.table[g.names[i]])
  {
    seq(|g.names|, i requires 0 <= i < |g.names| => (g.names[i], g.table[g.names[i]]))
  }

  /** The sort comparison on entries: larger counts first. */
  predicate ByCountDesc(a: (string, Totals), b: (string, Totals)) {
    a.1.count >= b.1.count
  }

  lemma ByCountDescTotalPreorder()
    ensures TotalPreorder(ByCountDesc)
  {
  }

  /** `sort` by descending count, then `slice(0, 5)`. */
  function Ranked(entries: seq<(string, Totals)>): (r: seq<(string, Totals)>)
    ensures |r| == if |entries| < 5 then |entries| else 5
  {
    Take(SortBy(entries, ByCountDesc), 5)
  }

  /** The ranking lists given entries only, each at most as often as it is
      given, most frequent first, and leaves out no entry more frequent than
      the last one it lists. */
  lemma RankedOrder(entries: seq<(string, Totals)>)
    ensures var r := Ranked(entries);
      && multiset(r) <= multiset(entries)
      && (forall e :: e in r ==> e in entries)
      && SortedBy(r, ByCountDesc)
      && (forall e :: e in entries && e !in r ==> r != [] && e.1.count <= r[|r| - 1].1.count)
  {
    ByCountDescTotalPreorder();
    SortBySorted(entries, ByCountDesc);
    SortByMembers(entries, ByCountDesc);
    TakeSorted(SortBy(entries, ByCountDesc), 5, ByCountDesc);
    assert Ranked(entries) == Take(SortBy(entries, ByCountDesc), 5);
  }

  /** The five most frequent exercises of the intended grouping, in which
      every workout is counted under its own name. */
  function TopExercises(ws: seq<Workout>): (r: seq<(string, Totals)>)
    ensures |r| == if |GroupByExercise(ws).names| < 5 then |GroupByExercise(ws).names| else 5
    ensures forall e :: e in r ==> e.0 in GroupByExercise(ws).table && e.1 == GroupByExercise(ws).table[e.0]
    ensures forall i, j :: 0 <= i < j < |r| ==> r[i].0 != r[j].0
    ensures multiset(r) <= multiset(Entries(GroupByExercise(ws)))
    ensures SortedBy(r, ByCountDesc)
    ensures forall n :: n in GroupByExercise(ws).table && (n, GroupByExercise(ws).table[n]) !in r ==>
      r != [] && GroupByExercise(ws).table[n].count <= r[|r| - 1].1.count
  {
    TopGroups(GroupByExercise(ws))
  }

  /** The ranking of a grouping whose names are distinct and exactly its
      keys: each group at most once, with its own totals, most frequent
      first, and no group left out that is more frequent than the last one
      listed. */
  function TopGroups(g: Grouping): (r: seq<(string, Totals)>)
    requires forall n :: n in g.table <==> n in g.names
    requires forall i, j :: 0 <= i < j < |g.names| ==> g.names[i] != g.names[j]
    ensures |r| == (if |g.names| < 5 then |g.names| else 5)
    ensures forall e :: e in r ==> e.0 in g.table && e.1 == g.table[e.0]
    ensures forall i, j :: 0 <= i < j < |r| ==> r[i].0 != r[j].0
    ensures multiset(r) <= multiset(Entries(g))
    ensures SortedBy(r, ByCountDesc)
    ensures forall n :: n in g.table && (n, g.table[n]) !in r ==> r != [] && g.table[n].count <= r[|r| - 1].1.count
  {
    var r := Ranked(Entries(g));
    RankedGroups(g, r);
    r
  }

  /** The facts behind the ranking of a grouping's entries. */
  lemma RankedGroups(g: Grouping, r: seq<(string, Totals)>)
    requires forall n :: n in g.table <==> n in g.names
    requires forall i, j :: 0 <= i < j < |g.names| ==> g.names[i] != g.names[j]
    requires r == Ranked(Entries(g))
    ensures forall e :: e in r ==> e.0 in g.table && e.1 == g.table[e.0]
    ensures forall i, j :: 0 <= i < j < |r| ==> r[i].0 != r[j].0
    ensures multiset(r) <= multiset(Entries(g))
    ensures SortedBy(r, ByCountDesc)
    ensures forall n :: n in g.table && (n, g.table[n]) !in r ==> r != [] && g.table[n].count <= r[|r| - 1].1.count
  {
    var entries := Entries(g);
    assert Distinct(entries) && forall e :: e in entries ==> e.0 in g.table && e.1 == g.table[e.0] by {
      EntriesOfGroups(g);
    }
    assert SortedBy(r, ByCountDesc) && multiset(r) <= multiset(entries) && (forall e :: e in r ==> e in entries)
      && (forall e :: e in entries && e !in r ==> r != [] && e.1.count <= r[|r| - 1].1.count) by {
      RankedOrder(entries);
    }
    assert Distinct(r) by { SubMultisetKeepsDistinct(r, entries); }
    forall i, j | 0 <= i < j < |r| ensures r[i].0 != r[j].0 {
      assert r[i] in r && r[j] in r;
    }
    forall n | n in g.table && (n, g.table[n]) !in r ensures r != [] && g.table[n].count <= r[|r| - 1].1.count {
      EntriesOfGroups(g);
    }
  }

  /** The entries are exactly the groups, each once and with its own totals. */
  lemma EntriesOfGroups(g: Grouping)
    requires forall n :: n in g.table <==> n in g.names
    requires forall i, j :: 0 <= i < j < |g.names| ==> g.names[i] != g.names[j]
    ensures Distinct(Entries(g))
    ensures forall e :: e in Entries(g) ==> e.0 in g.table && e.1 == g.table[e.0]
    ensures forall n :: n in g.table ==> (n, g.table[n]) in Entries(g)
  {
    var entries := Entries(g);
    forall n | n in g.table ensures (n, g.table[n]) in entries {
      var i :| 0 <= i < |g.names| && g.names[i] == n;
      assert entries[i] == (n, g.table[n]);
    }
  }

  // ---------------------------------------------------------------------------
  // The accumulator as written

  /** The members every object inherits. On the page's accumulator `{}`,
      `acc[name]` for one of these names finds the inherited member, which is
      truthy, so no own entry is created; the updates that follow land on the
      inherited member, and `Object.entries` lists own entries only. */
  const InheritedNames: set<string> := {
    "constructor", "__proto__", "__defineGetter__", "__defineSetter__",
    "__lookupGetter__", "__lookupSetter__", "hasOwnProperty", "isPrototypeOf",
    "propertyIsEnumerable", "toString", "toLocaleString", "valueOf"}

  function RecordAsWritten(g: Grouping, w: Workout): Grouping {
    if w.exercise in InheritedNames then g else Record(g, w)
  }

  /** The grouping the page computes: workouts named after an inherited
      member are left out of every group. */
  function GroupAsWritten(ws: seq<Workout>): (g: Grouping)
    ensures forall n :: n in g.table <==> n in g.names
    ensures forall n :: n in g.table ==> n !in InheritedNames
  {
    if ws == [] then Empty else RecordAsWritten(GroupAsWritten(ws[..|ws| - 1]), ws[|ws| - 1])
  }

  /** The page's loop creates a key only for a name without one, so each name
      is listed once. */
  lemma {:induction false} AsWrittenNamesDistinct(ws: seq<Workout>)
    ensures forall i, j :: 0 <= i < j < |GroupAsWritten(ws).names| ==>
      GroupAsWritten(ws).names[i] != GroupAsWritten(ws).names[j]
    decreases |ws|
  {
    if ws != [] {
      var init, w := ws[..|ws| - 1], ws[|ws| - 1];
      var g0 := GroupAsWritten(init);
      AsWrittenNamesDistinct(init);
      assert GroupAsWritten(ws) == RecordAsWritten(g0, w);
      if w.exercise !in InheritedNames && w.exercise !in g0.table {
        assert w.exercise !in g0.names;
        assert GroupAsWritten(ws).names == g0.names + [w.exercise];
      }
    }
  }

  /** The page's five most frequent exercises: the ranking of the grouping
      its loop builds, which never lists a name every object inherits. */
  function TopExercisesAsWritten(ws: seq<Workout>): (r: seq<(string, Totals)>)
    ensures |r| == if |GroupAsWritten(ws).names| < 5 then |GroupAsWritten(ws).names| else 5
    ensures forall e :: e in r ==> e.0 in GroupAsWritten(ws).table && e.1 == GroupAsWritten(ws).table[e.0]
    ensures forall e :: e in r ==> e.0 !in InheritedNames
    ensures forall i, j :: 0 <= i < j < |r| ==> r[i].0 != r[j].0
    ensures SortedBy(r, ByCountDesc)
    ensures forall n :: n in GroupAsWritten(ws).table && (n, GroupAsWritten(ws).table[n]) !in r ==>
      r != [] && GroupAsWritten(ws).table[n].count <= r[|r| - 1].1.count
  {
    AsWrittenNamesDistinct(ws);
    TopGroups(GroupAsWritten(ws))
  }

  /** A single workout named "toString" appears in no group, so the group
      counts add up to 0 instead of 1. */
  lemma InheritedNameDropped()
    ensures var ws := [WorkoutsApi.Workout("w1", "u1", "toString", 30, 200, None, 0)];
      var g := GroupAsWritten(ws);
      g.names == [] && SumField(g.names, g.table, CountOf) == 0 && |ws| == 1
  {
    var ws := [WorkoutsApi.Workout("w1", "u1", "toString", 30, 200, None, 0)];
    assert ws[..0] == [];
  }

  /** The same workout is among the intended top exercises but not among the
      page's: the page's ranking is empty. */
  lemma InheritedNameUnranked()
    ensures var ws := [WorkoutsApi.Workout("w1", "u1", "toString", 30, 200, None, 0)];
      TopExercisesAsWritten(ws) == [] && TopExercises(ws) == [("toString", Totals(1, 30, 200))]
  {
    var ws := [WorkoutsApi.Workout("w1", "u1", "toString", 30, 200, None, 0)];
    assert ws[..0] == [];
    var r := TopExercises(ws);
    assert GroupByExercise(ws) == Grouping(["toString"], map["toString" := Totals(1, 30, 200)]);
    assert r[0] in r;
  }

  /** Away from inherited names the page's ranking is the intended one. */
  lemma AsWrittenRankingAgrees(ws: seq<Workout>)
    requires forall i :: 0 <= i < |ws| ==> ws[i].exercise !in InheritedNames
    ensures TopExercisesAsWritten(ws) == TopExercises(ws)
  {
    AsWrittenAgrees(ws);
  }

  /** Away from inherited names the page's grouping is the intended one. */
  lemma {:induction false} AsWrittenAgrees(ws: seq<Workout>)
    requires forall i :: 0 <= i < |ws| ==> ws[i].exercise !in InheritedNames
    ensures GroupAsWritten(ws) == GroupByExercise(ws)
    decreases |ws|
  {
    if ws != [] {
      AsWrittenAgrees(ws[..|ws| - 1]);
    }
  }
}
