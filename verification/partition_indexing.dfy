/**
 * The partition-index coverage check of the partition-indexing tests, and the
 * migration-aware service those tests plug in to make a migration fail until
 * it has been rolled back.
 *
 * The check walks every index of every index registry of every map, in
 * order, and keeps per index name the set of partitions seen so far (a
 * BitSet in the test). A partition of `[0, expectedPartitions)` indexed twice
 * under the same name fails at once; at the end every name must have exactly
 * `expectedPartitions` partitions.
 */
module PartitionIndexing {
  import opened Wrappers

  /** One index as the check sees it: its name and the partitions `hasPartitionIndexed` answers true for. */
  datatype Index = Index(name: string, indexed: set<int>)

  /** Why the check fails. */
  datatype ValidationError =
    | AlreadyIndexed(partition: int, name: string) // "partition #p is already indexed by name"
    | MissingPartitions(names: set<string>)      // the names whose partition count is not the expected one

  /** The partitions of `s` in `[lo, hi)`. */
  function Window(s: set<int>, lo: int, hi: int): (w: set<int>)
    ensures w <= s
    ensures forall x :: x in w <==> x in s && lo <= x < hi
  {
    set x | x in s && lo <= x < hi
  }

  /** `[0, n)`. */
  function Range(n: int): (r: set<int>)
    ensures forall x :: x in r <==> 0 <= x < n
    decreases n
  {
    if n <= 0 then {} else Range(n - 1) + {n - 1}
  }

  // ---------------------------------------------------------------------------
  // The check as the test writes it

  /**
   * The loop over `partition` from `p` up to `expected`: every indexed
   * partition is added to `seen`, and the first one already there is reported.
   */
  function ScanPartitions(seen: set<int>, indexed: set<int>, p: int, expected: int): (r: Result<set<int>, int>)
    decreases expected - p
    ensures r.Success? <==> Window(indexed, p, expected) !! seen
    ensures r.Success? ==> r.value == seen + Window(indexed, p, expected)
    ensures r.Failure? ==> r.error in seen && r.error in Window(indexed, p, expected)
    ensures r.Failure? ==> Window(indexed, p, r.error) !! seen
  {
    if p >= expected then
      assert Window(indexed, p, expected) == {};
      Success(seen)
    else
      assert Window(indexed, p, expected) == (if p in indexed then {p} else {}) + Window(indexed, p + 1, expected);
      if p in indexed then
        if p in seen then
          assert Window(indexed, p, p) == {};
          Failure(p)
        else
          var r := ScanPartitions(seen + {p}, indexed, p + 1, expected);
          assert r.Failure? ==> Window(indexed, p, r.error) == {p} + Window(indexed, p + 1, r.error);
          r
      else
        var r := ScanPartitions(seen, indexed, p + 1, expected);
        assert r.Failure? ==> Window(indexed, p, r.error) == Window(indexed, p + 1, r.error);
        r
  }

  /** One index: look up (or start empty) the name's partitions and scan `[0, expected)`. */
  function Record(m: map<string, set<int>>, idx: Index, expected: int): (r: Result<map<string, set<int>>, ValidationError>)
    ensures r.Success? ==> r.value.Keys == m.Keys + {idx.name}
    ensures r.Success? ==> forall n :: n in m && n != idx.name ==> r.value[n] == m[n]
    ensures var seen := if idx.name in m then m[idx.name] else {};
            && (r.Success? <==> Window(idx.indexed, 0, expected) !! seen)
            && (r.Success? ==> r.value[idx.name] == seen + Window(idx.indexed, 0, expected))
    ensures r.Failure? ==> r.error.AlreadyIndexed? && r.error.name == idx.name
  {
    var seen := if idx.name in m then m[idx.name] else {};
    match ScanPartitions(seen, idx.indexed, 0, expected)
    case Success(s) => Success(m[idx.name := s])
    case Failure(p) => Failure(AlreadyIndexed(p, idx.name))
  }

  /** The nested loops over maps, registries and indexes, flattened into `idxs` in iteration order. */
  function Tally(idxs: seq<Index>, expected: int): (r: Result<map<string, set<int>>, ValidationError>)
    ensures r.Failure? ==> r.error.AlreadyIndexed?
    decreases |idxs|
  {
    if |idxs| == 0 then Success(map[])
    else
      match Tally(idxs[..|idxs| - 1], expected)
      case Failure(e) => Failure(e)
      case Success(m) => Record(m, idxs[|idxs| - 1], expected)
  }

  /** `assertPartitionsIndexedCorrectly`: the duplicate scan, then the per-name cardinality check. */
  function Validate(idxs: seq<Index>, expected: int): Result<(), ValidationError> {
    match Tally(idxs, expected)
    case Failure(e) => Failure(e)
    case Success(m) =>
      var missing := MissingNames(m, expected);
      if missing == {} then Success(()) else Failure(MissingPartitions(missing))
  }

  /** The names whose partition count is not `expected`. */
  function MissingNames(m: map<string, set<int>>, expected: int): set<string> {
    set n | n in m && |m[n]| != expected
  }

  // ---------------------------------------------------------------------------
  // What the check means

  /** The names of the indexes seen. */
  function Names(idxs: seq<Index>): set<string>
    decreases |idxs|
  {
    if |idxs| == 0 then {} else Names(idxs[..|idxs| - 1]) + {idxs[|idxs| - 1].name}
  }

  /** The partitions of `[0, expected)` indexed under `name` by any index. */
  function Covered(idxs: seq<Index>, name: string, expected: int): set<int>
    decreases |idxs|
  {
    if |idxs| == 0 then {}
    else
      var last := idxs[|idxs| - 1];
      Covered(idxs[..|idxs| - 1], name, expected) + (if last.name == name then Window(last.indexed, 0, expected) else {})
  }

  /** A name is seen exactly when some index carries it. */
  lemma {:induction false} NamesMembership(idxs: seq<Index>, n: string)
    ensures n in Names(idxs) <==> exists i :: 0 <= i < |idxs| && idxs[i].name == n
    decreases |idxs|
  {
    if |idxs| > 0 {
      var pre := idxs[..|idxs| - 1];
      NamesMembership(pre, n);
      if n in Names(pre) {
        var i :| 0 <= i < |pre| && pre[i].name == n;
        assert idxs[i] == pre[i];
      }
      if exists i :: 0 <= i < |idxs| && idxs[i].name == n {
        var i :| 0 <= i < |idxs| && idxs[i].name == n;
        if i < |pre| {
          assert idxs[i] == pre[i];
        }
      }
    }
  }

  /** A partition is covered under `name` exactly when some index of that name holds it within `[0, expected)`. */
  lemma {:induction false} CoveredMembership(idxs: seq<Index>, name: string, expected: int, p: int)
    ensures p in Covered(idxs, name, expected) <==>
              exists i :: 0 <= i < |idxs| && idxs[i].name == name && p in Window(idxs[i].indexed, 0, expected)
    decreases |idxs|
  {
    if |idxs| > 0 {
      var pre := idxs[..|idxs| - 1];
      CoveredMembership(pre, name, expected, p);
      if p in Covered(pre, name, expected) {
        var i :| 0 <= i < |pre| && pre[i].name == name && p in Window(pre[i].indexed, 0, expected);
        assert idxs[i] == pre[i];
      }
      if exists i :: 0 <= i < |idxs| && idxs[i].name == name && p in Window(idxs[i].indexed, 0, expected) {
        var i :| 0 <= i < |idxs| && idxs[i].name == name && p in Window(idxs[i].indexed, 0, expected);
        if i < |pre| {
          assert idxs[i] == pre[i];
        }
      }
    }
  }

  /** No two indexes of the same name index the same partition of `[0, expected)`. */
  predicate Disjoint(idxs: seq<Index>, expected: int) {
    forall i, j :: 0 <= i < j < |idxs| && idxs[i].name == idxs[j].name ==>
      Window(idxs[i].indexed, 0, expected) !! Window(idxs[j].indexed, 0, expected)
  }

  /** Every name has exactly `expected` partitions of `[0, expected)` indexed. */
  predicate Complete(idxs: seq<Index>, expected: int) {
    forall n :: n in Names(idxs) ==> |Covered(idxs, n, expected)| == expected
  }

  /** Adding one index keeps the earlier pairs and adds the pairs with it. */
  lemma DisjointSnoc(idxs: seq<Index>, expected: int)
    requires |idxs| > 0
    ensures var pre, last := idxs[..|idxs| - 1], idxs[|idxs| - 1];
            Disjoint(idxs, expected) <==>
              Disjoint(pre, expected) && Window(last.indexed, 0, expected) !! Covered(pre, last.name, expected)
  {
    var pre, last := idxs[..|idxs| - 1], idxs[|idxs| - 1];
    var w := Window(last.indexed, 0, expected);
    var c := Covered(pre, last.name, expected);
    if Disjoint(idxs, expected) {
      forall p | p in c ensures p !in w {
        CoveredMembership(pre, last.name, expected, p);
        var i :| 0 <= i < |pre| && pre[i].name == last.name && p in Window(pre[i].indexed, 0, expected);
        assert idxs[i] == pre[i];
      }
    }
    if Disjoint(pre, expected) && w !! c {
      forall i, j | 0 <= i < j < |idxs| && idxs[i].name == idxs[j].name
        ensures Window(idxs[i].indexed, 0, expected) !! Window(idxs[j].indexed, 0, expected)
      {
        assert idxs[i] == pre[i];
        if j < |pre| {
          assert idxs[j] == pre[j];
        } else {
          forall p | p in Window(idxs[i].indexed, 0, expected) ensures p in c {
            CoveredMembership(pre, last.name, expected, p);
          }
        }
      }
    }
  }

  /** The running map holds, per name seen, the partitions covered so far; the tally fails exactly on a clash. */
  lemma {:induction false} TallyMeaning(idxs: seq<Index>, expected: int)
    ensures Tally(idxs, expected).Success? <==> Disjoint(idxs, expected)
    ensures Tally(idxs, expected).Success? ==>
              var m := Tally(idxs, expected).value;
              m.Keys == Names(idxs) && forall n :: n in m ==> m[n] == Covered(idxs, n, expected)
    decreases |idxs|
  {
    if |idxs| > 0 {
      var pre, last := idxs[..|idxs| - 1], idxs[|idxs| - 1];
      TallyMeaning(pre, expected);
      DisjointSnoc(idxs, expected);
      var t := Tally(pre, expected);
      if t.Success? {
        var m := t.value;
        if last.name !in m {
          UnseenNameCoversNothing(pre, last.name, expected);
        }
      }
    }
  }

  /** A name no index carries covers nothing. */
  lemma {:induction false} UnseenNameCoversNothing(idxs: seq<Index>, name: string, expected: int)
    requires name !in Names(idxs)
    ensures Covered(idxs, name, expected) == {}
    decreases |idxs|
  {
    if |idxs| > 0 {
      UnseenNameCoversNothing(idxs[..|idxs| - 1], name, expected);
    }
  }

  /** The check passes exactly when, per name, the indexes are pairwise disjoint and their count is `expected`. */
  lemma ValidateMeaning(idxs: seq<Index>, expected: int)
    ensures Validate(idxs, expected).Success? <==> Disjoint(idxs, expected) && Complete(idxs, expected)
  {
    TallyMeaning(idxs, expected);
  }

  /** A count failure comes only after a clean duplicate scan, and names exactly the names whose count is off. */
  lemma MissingPartitionsMeaning(idxs: seq<Index>, expected: int)
    requires Validate(idxs, expected).Failure? && Validate(idxs, expected).error.MissingPartitions?
    ensures Disjoint(idxs, expected)
    ensures Validate(idxs, expected).error.names
            == set n | n in Names(idxs) && |Covered(idxs, n, expected)| != expected
  {
    TallyMeaning(idxs, expected);
    MissingNamesOfTally(Tally(idxs, expected).value, idxs, expected);
  }

  lemma MissingNamesOfTally(m: map<string, set<int>>, idxs: seq<Index>, expected: int)
    requires m.Keys == Names(idxs) && forall n :: n in m ==> m[n] == Covered(idxs, n, expected)
    ensures MissingNames(m, expected) == set n | n in Names(idxs) && |Covered(idxs, n, expected)| != expected
  {
  }

  /** A failing check names the clashing partition, which two same-named indexes both hold within `[0, expected)`. */
  lemma AlreadyIndexedMeaning(idxs: seq<Index>, expected: int)
    requires Validate(idxs, expected).Failure? && Validate(idxs, expected).error.AlreadyIndexed?
    ensures var e := Validate(idxs, expected).error;
            exists i, j :: 0 <= i < j < |idxs| && idxs[i].name == idxs[j].name == e.name
                           && e.partition in Window(idxs[i].indexed, 0, expected)
                           && e.partition in Window(idxs[j].indexed, 0, expected)
  {
    TallyFailure(idxs, expected);
  }

  lemma {:induction false} TallyFailure(idxs: seq<Index>, expected: int)
    requires Tally(idxs, expected).Failure?
    ensures var e := Tally(idxs, expected).error;
            e.AlreadyIndexed? &&
            exists i, j :: 0 <= i < j < |idxs| && idxs[i].name == idxs[j].name == e.name
                           && e.partition in Window(idxs[i].indexed, 0, expected)
                           && e.partition in Window(idxs[j].indexed, 0, expected)
    decreases |idxs|
  {
    var pre, last := idxs[..|idxs| - 1], idxs[|idxs| - 1];
    var e := Tally(idxs, expected).error;
    if Tally(pre, expected).Failure? {
      TallyFailure(pre, expected);
      var i, j :| 0 <= i < j < |pre| && pre[i].name == pre[j].name == e.name
                  && e.partition in Window(pre[i].indexed, 0, expected)
                  && e.partition in Window(pre[j].indexed, 0, expected);
      assert idxs[i] == pre[i] && idxs[j] == pre[j];
    } else {
      TallyMeaning(pre, expected);
      var m := Tally(pre, expected).value;
      var seen := if last.name in m then m[last.name] else {};
      assert seen == Covered(pre, last.name, expected);
      assert e.partition in seen && e.partition in Window(last.indexed, 0, expected);
      CoveredMembership(pre, last.name, expected, e.partition);
      var i :| 0 <= i < |pre| && pre[i].name == last.name && e.partition in Window(pre[i].indexed, 0, expected);
      assert idxs[i] == pre[i];
    }
  }

  /** Only partitions in `[0, expected)` matter: outside that range what an index claims is ignored. */
  lemma OnlyExpectedRangeExamined(idxs: seq<Index>, clipped: seq<Index>, expected: int)
    requires |idxs| == |clipped|
    requires forall i :: 0 <= i < |idxs| ==>
               clipped[i].name == idxs[i].name && clipped[i].indexed == Window(idxs[i].indexed, 0, expected)
    ensures Validate(idxs, expected) == Validate(clipped, expected)
  {
    TallyClipped(idxs, clipped, expected);
  }

  lemma {:induction false} TallyClipped(idxs: seq<Index>, clipped: seq<Index>, expected: int)
    requires |idxs| == |clipped|
    requires forall i :: 0 <= i < |idxs| ==>
               clipped[i].name == idxs[i].name && clipped[i].indexed == Window(idxs[i].indexed, 0, expected)
    ensures Tally(idxs, expected) == Tally(clipped, expected)
    decreases |idxs|
  {
    if |idxs| > 0 {
      var n := |idxs|;
      TallyClipped(idxs[..n - 1], clipped[..n - 1], expected);
      if Tally(idxs[..n - 1], expected).Success? {
        var m := Tally(idxs[..n - 1], expected).value;
        var last, cl := idxs[n - 1], clipped[n - 1];
        var seen := if last.name in m then m[last.name] else {};
        ScanClipped(seen, last.indexed, 0, expected);
      }
    }
  }

  lemma {:induction false} ScanClipped(seen: set<int>, indexed: set<int>, p: int, expected: int)
    requires 0 <= p
    ensures ScanPartitions(seen, indexed, p, expected) == ScanPartitions(seen, Window(indexed, 0, expected), p, expected)
    decreases expected - p
  {
    if p < expected {
      var w := Window(indexed, 0, expected);
      assert p in indexed <==> p in w;
      if !(p in indexed && p in seen) {
        ScanClipped(if p in indexed then seen + {p} else seen, indexed, p + 1, expected);
      }
    }
  }

  /** Each name is tracked on its own: indexes of other names do not change whether a name passes. */
  lemma NamesIndependent(idxs: seq<Index>, expected: int, name: string, other: Index)
    requires other.name != name
    ensures Covered(idxs + [other], name, expected) == Covered(idxs, name, expected)
  {
    assert (idxs + [other])[..|idxs|] == idxs;
  }

  /** For a non-negative count, `expected` covered partitions means exactly `[0, expected)` is covered. */
  lemma CompleteMeansCovering(idxs: seq<Index>, expected: int, name: string)
    requires 0 <= expected
    ensures |Covered(idxs, name, expected)| == expected <==> Covered(idxs, name, expected) == Range(expected)
  {
    var c := Covered(idxs, name, expected);
    RangeSize(expected);
    forall p | p in c ensures p in Range(expected) {
      CoveredMembership(idxs, name, expected, p);
    }
    if |c| == expected {
      SubsetOfEqualSize(c, Range(expected));
    }
  }

  lemma {:induction false} RangeSize(n: nat)
    ensures |Range(n)| == n
  {
    if n > 0 {
      RangeSize(n - 1);
    }
  }

  lemma SubsetOfEqualSize(a: set<int>, b: set<int>)
    requires a <= b && |a| == |b|
    ensures a == b
  {
    assert |b - a| == |b| - |a|;
  }

  // ---------------------------------------------------------------------------
  // MigrationFailingService

  /** The service's two volatile flags. */
  datatype MigrationFailingService = MigrationFailingService(fail: bool, rolledBack: bool)

  function NewMigrationFailingService(): (s: MigrationFailingService)
    ensures !s.fail && !s.rolledBack
  {
    MigrationFailingService(false, false)
  }

  /** `beforeMigration`: throws ("migration intentionally failed") exactly when `fail` is set and no rollback happened. */
  predicate BeforeMigrationThrows(s: MigrationFailingService) {
    s.fail && !s.rolledBack
  }

  /** `rollbackMigration`: records the rollback. */
  function RollbackMigration(s: MigrationFailingService): (t: MigrationFailingService)
    ensures t.rolledBack && t.fail == s.fail
  {
    s.(rolledBack := true)
  }

  /** What the service sees: the test setting `fail`, and the migration callbacks. */
  datatype MigrationEvent =
    | SetFail(fail: bool)
    | PrepareReplication  // returns null, changes nothing
    | Before
    | Commit              // does nothing
    | Rollback

  function Step(s: MigrationFailingService, ev: MigrationEvent): MigrationFailingService {
    match ev
    case SetFail(b) => s.(fail := b)
    case Rollback => RollbackMigration(s)
    case _ => s
  }

  /** Whether some `beforeMigration` in `evs` throws, starting from `s`. */
  function SomeBeforeThrows(s: MigrationFailingService, evs: seq<MigrationEvent>): bool
    decreases |evs|
  {
    if |evs| == 0 then false
    else (evs[0].Before? && BeforeMigrationThrows(s)) || SomeBeforeThrows(Step(s, evs[0]), evs[1..])
  }

  /** Once rolled back, `beforeMigration` never throws again, whatever else happens. */
  lemma {:induction false} NoFailureAfterRollback(s: MigrationFailingService, evs: seq<MigrationEvent>)
    requires s.rolledBack
    ensures !SomeBeforeThrows(s, evs)
    decreases |evs|
  {
    if |evs| > 0 {
      NoFailureAfterRollback(Step(s, evs[0]), evs[1..]);
    }
  }

  /** The service after the events `evs`, starting from `s`. */
  function StateAfter(s: MigrationFailingService, evs: seq<MigrationEvent>): MigrationFailingService
    decreases |evs|
  {
    if |evs| == 0 then s else StateAfter(Step(s, evs[0]), evs[1..])
  }

  /** An event that neither rolls back nor clears `fail`. */
  predicate KeepsFailing(ev: MigrationEvent) {
    !ev.Rollback? && ev != SetFail(false)
  }

  /** Without a rollback or a clearing of `fail`, a failing service keeps failing. */
  lemma {:induction false} FailingPersists(s: MigrationFailingService, evs: seq<MigrationEvent>)
    requires s.fail && !s.rolledBack
    requires forall k :: 0 <= k < |evs| ==> KeepsFailing(evs[k])
    ensures BeforeMigrationThrows(StateAfter(s, evs))
    decreases |evs|
  {
    if |evs| > 0 {
      FailingPersists(Step(s, evs[0]), evs[1..]);
    }
  }

  /**
   * The test's scenario: with `fail` set, every `beforeMigration` before the
   * first rollback throws, and none after it does, whatever else happens.
   */
  lemma FailUntilRollback(s: MigrationFailingService, before: seq<MigrationEvent>, after: seq<MigrationEvent>)
    requires s.fail && !s.rolledBack
    requires forall k :: 0 <= k < |before| ==> KeepsFailing(before[k])
    ensures BeforeMigrationThrows(StateAfter(s, before))
    ensures SomeBeforeThrows(StateAfter(s, before), [Before])
    ensures !SomeBeforeThrows(StateAfter(s, before + [Rollback]), after)
  {
    FailingPersists(s, before);
    StateAfterSnoc(s, before, Rollback);
    NoFailureAfterRollback(StateAfter(s, before + [Rollback]), after);
  }

  lemma {:induction false} StateAfterSnoc(s: MigrationFailingService, evs: seq<MigrationEvent>, ev: MigrationEvent)
    ensures StateAfter(s, evs + [ev]) == Step(StateAfter(s, evs), ev)
    decreases |evs|
  {
    if |evs| > 0 {
      assert (evs + [ev])[1..] == evs[1..] + [ev];
      StateAfterSnoc(Step(s, evs[0]), evs[1..], ev);
    }
  }
}
