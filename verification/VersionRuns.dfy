/** Version history when creation times follow version numbers, and over whole runs of edits. */
module VersionRuns {
  import opened Common
  import opened VersionModel

  // ---------- The survivors, when newer versions carry later times ----------

  ghost predicate InTimeOrder(rows: seq<Version>) {
    forall i, j | 0 <= i < j < |rows| :: rows[i].createdAt >= rows[j].createdAt
  }

  /** An hour, a day and a week, in seconds. */
  function WindowAge(window: nat): int { if window == 0 then 3600 else if window == 1 then 86400 else 604800 }

  /** How many of the newest versions are kept after the windows of the hour, the day and the week, in this order. */
  function KeptPrefix(rows: seq<Version>, now: int, buckets: nat): (m: nat)
    requires |rows| > MAX_VERSIONS && buckets <= 3
    ensures 3 <= m <= 3 + buckets
  {
    if buckets == 0 then 3 else
    var m := KeptPrefix(rows, now, buckets - 1);
    if rows[m].createdAt >= now - WindowAge(buckets - 1) then m + 1 else m
  }

  /** With the first `j` versions kept, a window takes the next one or none. */
  lemma {:induction false} NextInWindow(rows: seq<Version>, start: int, keep: set<nat>, j: nat)
    requires DistinctIds(rows) && InTimeOrder(rows) && j < |rows|
    requires forall i | 0 <= i < |rows| :: rows[i].id in keep <==> i < j
    ensures FirstFresh(rows, start, keep) == if rows[j].createdAt >= start then Some(rows[j].id) else None
  {
    var rest := rows[1..];
    if j > 0 {
      NextInWindow(rest, start, keep, j - 1);
    } else if rows[0].createdAt < start {
      FreshIsListed(rows, start, keep);
      assert forall v | v in rows :: v.createdAt <= rows[0].createdAt;
    }
  }

  lemma PrefixIds(rows: seq<Version>, j: nat, i: nat)
    requires DistinctIds(rows) && j <= |rows| && i < |rows|
    ensures rows[i].id in Ids(rows[..j]) <==> i < j
  {
    if rows[i].id in Ids(rows[..j]) {
      var v :| v in rows[..j] && v.id == rows[i].id;
      var k :| 0 <= k < j && rows[k] == v;
      assert k == i;
    }
    if i < j { assert rows[..j][i] == rows[i]; }
  }

  lemma WindowExtendsPrefix(rows: seq<Version>, start: int, m: nat)
    requires DistinctIds(rows) && InTimeOrder(rows) && m < |rows|
    ensures FirstFresh(rows, start, Ids(rows[..m])) == if rows[m].createdAt >= start then Some(rows[m].id) else None
    ensures Ids(rows[..m + 1]) == Ids(rows[..m]) + {rows[m].id}
  {
    forall i | 0 <= i < |rows| ensures rows[i].id in Ids(rows[..m]) <==> i < m { PrefixIds(rows, m, i); }
    NextInWindow(rows, start, Ids(rows[..m]), m);
    assert rows[..m + 1] == rows[..m] + [rows[m]];
  }

  lemma {:induction false} KeptIsPrefix(rows: seq<Version>, now: int, buckets: nat)
    requires DistinctIds(rows) && InTimeOrder(rows) && |rows| > MAX_VERSIONS && buckets <= 3
    ensures KeepAfter(rows, now, buckets) == Ids(rows[..KeptPrefix(rows, now, buckets)])
  {
    if buckets > 0 {
      KeptIsPrefix(rows, now, buckets - 1);
      KeptStep(rows, now, buckets, KeptPrefix(rows, now, buckets - 1));
    }
  }

  lemma KeptStep(rows: seq<Version>, now: int, buckets: nat, m: nat)
    requires DistinctIds(rows) && InTimeOrder(rows) && m < |rows| && 0 < buckets
    requires KeepAfter(rows, now, buckets - 1) == Ids(rows[..m])
    ensures KeepAfter(rows, now, buckets)
      == Ids(rows[..if rows[m].createdAt >= WindowStart(now, buckets - 1) then m + 1 else m])
  {
    WindowExtendsPrefix(rows, WindowStart(now, buckets - 1), m);
  }

  lemma {:induction false} OutsideMiddle(rows: seq<Version>, keep: set<nat>, m: nat)
    requires m < |rows|
    requires forall i | 0 <= i < |rows| :: rows[i].id in keep <==> i < m || i == |rows| - 1
    ensures IdsOutside(rows, keep) == seq(|rows| - 1 - m, i requires 0 <= i < |rows| - 1 - m => rows[m + i].id)
  {
    if |rows| > 1 {
      OutsideMiddle(rows[1..], keep, if m > 0 then m - 1 else 0);
    } else {
      assert IdsOutside(rows[1..], keep) == [];
    }
  }

  lemma CutBehindFirst<T>(s: seq<T>, a: nat, b: nat)
    requires 0 < a <= b <= |s|
    ensures s[..a] + s[b..] == [s[0]] + (s[1..][..a - 1] + s[1..][b - 1..])
  {
    assert s[..a] == [s[0]] + s[1..][..a - 1];
    assert s[b..] == s[1..][b - 1..];
  }

  lemma CutAtFirst<T>(s: seq<T>, b: nat)
    requires 0 < b <= |s|
    ensures s[..0] + s[b..] == s[1..][..0] + s[1..][b - 1..]
  {
    assert s[b..] == s[1..][b - 1..];
  }

  lemma CutNothing<T>(s: seq<T>)
    requires s != []
    ensures s[..0] + s[0..] == [s[0]] + (s[1..][..0] + s[1..][0..])
  {
  }

  /** Exactly the rows from `a` to `b` have their ids in `ids`. */
  predicate IsStretch(rows: seq<Version>, ids: seq<nat>, a: nat, b: nat) {
    a <= b <= |rows| && forall i | 0 <= i < |rows| :: rows[i].id in ids <==> a <= i < b
  }

  lemma StretchOfRest(rows: seq<Version>, ids: seq<nat>, a: nat, b: nat)
    requires rows != [] && IsStretch(rows, ids, a, b)
    ensures IsStretch(rows[1..], ids, if a > 0 then a - 1 else 0, if b > 0 then b - 1 else 0)
  {
    assert forall i | 0 <= i < |rows| - 1 :: rows[1..][i] == rows[i + 1];
  }

  lemma {:induction false} WithoutMiddle(rows: seq<Version>, ids: seq<nat>, a: nat, b: nat)
    requires IsStretch(rows, ids, a, b)
    ensures Without(rows, ids) == rows[..a] + rows[b..]
  {
    if rows != [] {
      var rest := rows[1..];
      StretchOfRest(rows, ids, a, b);
      if a > 0 {
        WithoutMiddle(rest, ids, a - 1, b - 1);
        assert Without(rows, ids) == [rows[0]] + Without(rest, ids);
        CutBehindFirst(rows, a, b);
      } else if b > 0 {
        WithoutMiddle(rest, ids, 0, b - 1);
        assert Without(rows, ids) == [] + Without(rest, ids) == Without(rest, ids);
        CutAtFirst(rows, b);
      } else {
        WithoutMiddle(rest, ids, 0, 0);
        assert Without(rows, ids) == [rows[0]] + Without(rest, ids);
        CutNothing(rows);
      }
    }
  }

  /** Nothing beyond the newest three is kept for a window exactly when the fourth is over a week old. */
  lemma NothingInWindows(rows: seq<Version>, now: int)
    requires |rows| > MAX_VERSIONS
    ensures InTimeOrder(rows) ==> (KeptPrefix(rows, now, 3) == 3 <==> rows[3].createdAt < now - 604800)
  {
    var m0, m1, m2 := KeptPrefix(rows, now, 0), KeptPrefix(rows, now, 1), KeptPrefix(rows, now, 2);
    assert m0 == 3 && m1 == (if rows[3].createdAt >= now - HOUR then 4 else 3);
    assert m2 == (if rows[m1].createdAt >= now - DAY then m1 + 1 else m1);
    assert KeptPrefix(rows, now, 3) == (if rows[m2].createdAt >= now - 604800 then m2 + 1 else m2);
  }

  lemma PrefixAndLast(rows: seq<Version>, m: nat)
    requires DistinctIds(rows) && m < |rows|
    ensures var keep := Ids(rows[..m]) + {rows[|rows| - 1].id};
      |keep| == m + 1 && forall i | 0 <= i < |rows| :: rows[i].id in keep <==> i < m || i == |rows| - 1
  {
    forall i | 0 <= i < |rows| ensures rows[i].id in Ids(rows[..m]) <==> i < m { PrefixIds(rows, m, i); }
    IdsCount(rows[..m]);
  }

  lemma KeptIsPrefixAndLast(rows: seq<Version>, now: int)
    requires DistinctIds(rows) && InTimeOrder(rows) && |rows| > MAX_VERSIONS
    ensures var m := KeptPrefix(rows, now, 3);
      && |KeepIds(rows, now)| == m + 1
      && forall i | 0 <= i < |rows| :: rows[i].id in KeepIds(rows, now) <==> i < m || i == |rows| - 1
  {
    var m := KeptPrefix(rows, now, 3);
    KeptIsPrefix(rows, now, 3);
    PrefixAndLast(rows, m);
  }

  lemma StretchMembers(rows: seq<Version>, gone: seq<nat>, m: nat, b: nat)
    requires DistinctIds(rows) && m <= b <= |rows| && |gone| == b - m
    requires forall j | 0 <= j < |gone| :: gone[j] == rows[m + j].id
    ensures IsStretch(rows, gone, m, b)
  {
    forall i | 0 <= i < |rows| ensures rows[i].id in gone <==> m <= i < b {
      if m <= i < b { assert gone[i - m] == rows[i].id; }
    }
  }

  /** How many ids culling deletes, from the front of those outside the kept ones. */
  function Deletions(rows: seq<Version>, now: int): int
    requires rows != []
  {
    if FallsBack(rows, now) then |rows| - 10 else |rows| - |KeepIds(rows, now)|
  }

  lemma DeleteIdsAre(rows: seq<Version>, now: int)
    requires |rows| > MAX_VERSIONS && |IdsOutside(rows, KeepIds(rows, now))| == |rows| - |KeepIds(rows, now)|
    requires 4 <= |KeepIds(rows, now)| <= 7
    ensures 0 <= Deletions(rows, now) <= |IdsOutside(rows, KeepIds(rows, now))|
    ensures DeleteIds(rows, now) == IdsOutside(rows, KeepIds(rows, now))[..Deletions(rows, now)]
  {
  }

  /** With the newest `m` and the last row kept, the deleted ids are those from `m` on. */
  lemma DeletedFrom(rows: seq<Version>, now: int, m: nat)
    requires |rows| > MAX_VERSIONS && 3 <= m <= 6 && |KeepIds(rows, now)| == m + 1
    requires forall i | 0 <= i < |rows| :: rows[i].id in KeepIds(rows, now) <==> i < m || i == |rows| - 1
    ensures |DeleteIds(rows, now)| == Deletions(rows, now) <= |rows| - m - 1
    ensures forall j | 0 <= j < |DeleteIds(rows, now)| :: DeleteIds(rows, now)[j] == rows[m + j].id
  {
    OutsideMiddle(rows, KeepIds(rows, now), m);
    DeleteIdsAre(rows, now);
  }

  /** Where the deleted stretch ends: seven versions from the oldest in the fallback, and otherwise at the oldest. */
  function CutEnd(rows: seq<Version>, now: int): int
    requires rows != []
  {
    |rows| - if FallsBack(rows, now) then 7 else 1
  }

  /** With times in order the deleted ids are a stretch of the list. */
  lemma DeletedStretch(rows: seq<Version>, now: int)
    requires DistinctIds(rows) && InTimeOrder(rows) && |rows| > MAX_VERSIONS
    ensures IsStretch(rows, DeleteIds(rows, now), KeptPrefix(rows, now, 3), CutEnd(rows, now))
  {
    var m := KeptPrefix(rows, now, 3);
    KeptIsPrefixAndLast(rows, now);
    DeletedFrom(rows, now, m);
    StretchMembers(rows, DeleteIds(rows, now), m, CutEnd(rows, now));
  }

  lemma FallbackInTimeOrder(rows: seq<Version>, now: int)
    requires DistinctIds(rows) && InTimeOrder(rows) && |rows| > MAX_VERSIONS
    ensures FallsBack(rows, now) <==> rows[3].createdAt < now - 604800
    ensures FallsBack(rows, now) <==> KeptPrefix(rows, now, 3) == 3
  {
    KeptIsPrefixAndLast(rows, now);
    NothingInWindows(rows, now);
  }

  lemma CulledIsCut(rows: seq<Version>, now: int)
    requires DistinctIds(rows) && InTimeOrder(rows) && |rows| > MAX_VERSIONS
    ensures KeptPrefix(rows, now, 3) <= CutEnd(rows, now) <= |rows|
    ensures Culled(rows, now) == rows[..KeptPrefix(rows, now, 3)] + rows[CutEnd(rows, now)..]
  {
    DeletedStretch(rows, now);
    WithoutMiddle(rows, DeleteIds(rows, now), KeptPrefix(rows, now, 3), CutEnd(rows, now));
  }

  lemma LastSlice<T>(s: seq<T>)
    requires s != []
    ensures s[|s| - 1..] == [s[|s| - 1]]
  {
  }

  /** With times in order culling leaves a prefix of the list and the oldest version, or, when nothing
      but the newest three is a week young, the three newest and the seven oldest. */
  lemma CulledInTimeOrder(rows: seq<Version>, now: int)
    requires DistinctIds(rows) && InTimeOrder(rows) && |rows| > MAX_VERSIONS
    ensures FallsBack(rows, now) <==> rows[3].createdAt < now - 604800
    ensures var m := KeptPrefix(rows, now, 3);
      Culled(rows, now) == if FallsBack(rows, now) then rows[..3] + rows[|rows| - 7..]
        else rows[..m] + [rows[|rows| - 1]]
  {
    FallbackInTimeOrder(rows, now);
    CulledIsCut(rows, now);
    LastSlice(rows);
  }

  // ---------- The fallback, whatever the times ----------

  /** The first version that a window picks: those listed before it are older or kept already. */
  lemma {:induction false} FreshIsFirst(rows: seq<Version>, start: int, keep: set<nat>) returns (j: nat)
    requires FirstFresh(rows, start, keep).Some?
    ensures j < |rows| && rows[j].id == FirstFresh(rows, start, keep).value
    ensures rows[j].createdAt >= start && rows[j].id !in keep
    ensures forall i | 0 <= i < j :: rows[i].createdAt >= start ==> rows[i].id in keep
  {
    if rows[0].createdAt >= start && rows[0].id !in keep {
      j := 0;
    } else {
      var k := FreshIsFirst(rows[1..], start, keep);
      j := k + 1;
      assert forall i | 0 < i < j :: rows[i] == rows[1..][i - 1];
    }
  }

  /** Every version but the newest three and the last is over a week old. */
  ghost predicate MiddleIsOld(rows: seq<Version>, now: int) {
    forall i | 3 <= i < |rows| - 1 :: rows[i].createdAt < now - 604800
  }

  /** Then a window can only pick the last. */
  lemma PickOfOld(rows: seq<Version>, now: int, start: int, keep: set<nat>)
    requires DistinctIds(rows) && |rows| > MAX_VERSIONS && MiddleIsOld(rows, now)
    requires Ids(rows[..3]) <= keep && start >= now - 604800
    ensures var f := FirstFresh(rows, start, keep); f.Some? ==> f.value == rows[|rows| - 1].id
  {
    if FirstFresh(rows, start, keep).Some? {
      var j := FreshIsFirst(rows, start, keep);
      PrefixIds(rows, 3, j);
    }
  }

  lemma OldStep(rows: seq<Version>, now: int, buckets: nat, bound: set<nat>)
    requires DistinctIds(rows) && |rows| > MAX_VERSIONS && MiddleIsOld(rows, now)
    requires KeepAfter(rows, now, buckets) <= bound && rows[|rows| - 1].id in bound
    ensures KeepAfter(rows, now, buckets + 1) <= bound
  {
    KeepSize(rows, now, buckets);
    PickOfOld(rows, now, WindowStart(now, buckets), KeepAfter(rows, now, buckets));
  }

  lemma {:induction false} KeepOfOld(rows: seq<Version>, now: int, buckets: nat)
    requires DistinctIds(rows) && |rows| > MAX_VERSIONS && MiddleIsOld(rows, now)
    ensures KeepAfter(rows, now, buckets) <= Ids(rows[..3]) + {rows[|rows| - 1].id}
  {
    if buckets > 0 {
      KeepOfOld(rows, now, buckets - 1);
      OldStep(rows, now, buckets - 1, Ids(rows[..3]) + {rows[|rows| - 1].id});
    }
  }

  /** A version a week young that is neither among the newest three nor the last leads to a fifth kept id. */
  lemma RecentIsFifth(rows: seq<Version>, now: int, i: nat) returns (j: nat)
    requires DistinctIds(rows) && |rows| > MAX_VERSIONS && 3 <= i < |rows| - 1 && rows[i].createdAt >= now - 604800
    ensures 3 <= j < |rows| - 1 && rows[j].id in KeepAfter(rows, now, 3)
  {
    var keep, start := KeepAfter(rows, now, 2), WindowStart(now, 2);
    KeepGrows(rows, now, 2, 3);
    KeepSize(rows, now, 2);
    j := i;
    if FirstFresh(rows, start, keep).None? {
      FreshIsListed(rows, start, keep);
      assert rows[i] in rows;
    } else {
      var k := FreshIsFirst(rows, start, keep);
      PrefixIds(rows, 3, k);
      if k < |rows| - 1 { j := k; }
    }
  }

  lemma FifthId(rows: seq<Version>, keep: set<nat>, j: nat)
    requires DistinctIds(rows) && |rows| > MAX_VERSIONS && 3 <= j < |rows| - 1
    requires Ids(rows[..3]) <= keep && rows[j].id in keep && rows[|rows| - 1].id in keep
    ensures |keep| >= 5
  {
    NewestThree(rows);
    PrefixIds(rows, 3, j);
    PrefixIds(rows, 3, |rows| - 1);
    var five := Ids(rows[..3]) + {rows[j].id} + {rows[|rows| - 1].id};
    assert |five| == 5;
    SubsetSize(five, keep);
  }

  lemma OldFallsBack(rows: seq<Version>, now: int)
    requires DistinctIds(rows) && |rows| > MAX_VERSIONS && MiddleIsOld(rows, now)
    ensures FallsBack(rows, now)
  {
    var four := Ids(rows[..3]) + {rows[|rows| - 1].id};
    KeepIdsSize(rows, now);
    KeepOfOld(rows, now, 3);
    NewestThree(rows);
    assert KeepIds(rows, now) <= four;
    SubsetSize(KeepIds(rows, now), four);
  }

  lemma RecentDoesNotFallBack(rows: seq<Version>, now: int, i: nat)
    requires DistinctIds(rows) && |rows| > MAX_VERSIONS && 3 <= i < |rows| - 1 && rows[i].createdAt >= now - 604800
    ensures !FallsBack(rows, now)
  {
    var j := RecentIsFifth(rows, now, i);
    KeepIdsSize(rows, now);
    FifthId(rows, KeepIds(rows, now), j);
  }

  /** Whatever the times: the fallback is taken exactly if every version but the newest three and the last is over a
      week old. */
  lemma FallsBackExactly(rows: seq<Version>, now: int)
    requires DistinctIds(rows) && |rows| > MAX_VERSIONS
    ensures FallsBack(rows, now) <==> forall i | 3 <= i < |rows| - 1 :: rows[i].createdAt < now - 604800
  {
    if MiddleIsOld(rows, now) {
      OldFallsBack(rows, now);
    } else {
      var i :| 3 <= i < |rows| - 1 && rows[i].createdAt >= now - 604800;
      RecentDoesNotFallBack(rows, now, i);
    }
  }

  // ---------- The survivors, whatever the times ----------

  /** The version is among the newest three, or one of the first so many windows picked it. */
  ghost predicate KeptAt(rows: seq<Version>, now: int, j: nat, windows: nat)
    requires j < |rows|
    decreases windows, 0
  {
    if windows == 0 then j < 3
    else KeptAt(rows, now, j, windows - 1) || PickedAt(rows, now, j, windows - 1)
  }

  /** The window picks its newest version that was not kept before. */
  ghost predicate PickedAt(rows: seq<Version>, now: int, j: nat, window: nat)
    requires j < |rows|
    decreases window, 1
  {
    && rows[j].createdAt >= now - WindowAge(window) && !KeptAt(rows, now, j, window)
    && forall i | 0 <= i < j && rows[i].createdAt >= now - WindowAge(window) :: KeptAt(rows, now, i, window)
  }

  lemma PickIsFresh(rows: seq<Version>, now: int, j: nat, window: nat)
    requires DistinctIds(rows) && j < |rows|
    requires forall i: nat | i < |rows| ::
      rows[i].id in KeepAfter(rows, now, window) <==> KeptAt(rows, now, i, window)
    ensures PickedAt(rows, now, j, window) <==>
      FirstFresh(rows, WindowStart(now, window), KeepAfter(rows, now, window)) == Some(rows[j].id)
  {
    var start, keep := WindowStart(now, window), KeepAfter(rows, now, window);
    FreshIsListed(rows, start, keep);
    if FirstFresh(rows, start, keep).Some? {
      var k := FreshIsFirst(rows, start, keep);
      assert rows[j].id == rows[k].id ==> j == k;
    } else {
      assert rows[j] in rows;
    }
  }

  lemma {:induction false} KeptAtIs(rows: seq<Version>, now: int, windows: nat)
    requires DistinctIds(rows) && |rows| > 10
    ensures forall j: nat | j < |rows| ::
      rows[j].id in KeepAfter(rows, now, windows) <==> KeptAt(rows, now, j, windows)
  {
    forall j: nat | j < |rows|
      ensures rows[j].id in KeepAfter(rows, now, windows) <==> KeptAt(rows, now, j, windows)
    {
      if windows == 0 {
        PrefixIds(rows, 3, j);
      } else {
        KeptAtIs(rows, now, windows - 1);
        PickIsFresh(rows, now, j, windows - 1);
      }
    }
  }

  /** Outside the fallback exactly these survive: the newest three, what the three windows pick, and the oldest. */
  lemma SurvivorsExactly(rows: seq<Version>, now: int, j: nat)
    requires DistinctIds(rows) && |rows| > 10 && j < |rows| && !FallsBack(rows, now)
    ensures rows[j] in Culled(rows, now) <==> KeptAt(rows, now, j, 3) || j == |rows| - 1
  {
    KeptAtIs(rows, now, 3);
    SurvivorsAre(rows, DeleteIds(rows, now));
    DeletedOutsideFallback(rows, now);
    assert rows[j].id in KeepIds(rows, now) <==> KeptAt(rows, now, j, 3) || j == |rows| - 1;
    assert rows[j].id in Ids(rows);
  }

  lemma DeletedOutsideFallback(rows: seq<Version>, now: int)
    requires DistinctIds(rows) && |rows| > 10 && !FallsBack(rows, now)
    ensures forall id :: id in DeleteIds(rows, now) <==> id in Ids(rows) - KeepIds(rows, now)
  {
    DeletedAre(rows, now);
    OutsideCount(rows, KeepIds(rows, now)) by { KeepIdsSize(rows, now); }
    OutsideIs(rows, KeepIds(rows, now));
    assert forall id :: id in IdsOutside(rows, KeepIds(rows, now)) <==>
      id in Elements(IdsOutside(rows, KeepIds(rows, now)));
  }

  // ---------- Whole runs ----------

  /** An edit: the new content, the new row's key and creation time, and the time of the culling. */
  datatype Edit = Edit(content: string, id: nat, createdAt: int, now: int)

  function NextNumber(rows: seq<Version>): int { if rows == [] then 1 else rows[0].number + 1 }

  function AfterEdit(rows: seq<Version>, e: Edit): seq<Version> {
    Culled([Version(e.id, NextNumber(rows), e.content, e.createdAt)] + rows, e.now)
  }

  function AfterRun(rows: seq<Version>, run: seq<Edit>): seq<Version> {
    if run == [] then rows else AfterEdit(AfterRun(rows, run[..|run| - 1]), run[|run| - 1])
  }

  ghost predicate FreshIds(rows: seq<Version>, run: seq<Edit>)
    decreases |run|
  {
    run != [] ==>
      FreshIds(rows, run[..|run| - 1]) && run[|run| - 1].id !in Ids(AfterRun(rows, run[..|run| - 1]))
  }

  /** The version is what the edit of its number wrote. */
  predicate WrittenBy(v: Version, run: seq<Edit>) {
    && 1 <= v.number <= |run|
    && var e := run[v.number - 1];
       v.id == e.id && v.content == e.content && v.createdAt == e.createdAt
  }

  ghost predicate AsWritten(rows: seq<Version>, run: seq<Edit>) {
    forall v | v in rows :: WrittenBy(v, run)
  }

  /** The newest versions are those of the last edits. */
  ghost predicate NewestAre(rows: seq<Version>, edits: nat) {
    && (rows == [] <==> edits == 0)
    && (forall i | 0 <= i < 3 && i < edits :: i < |rows| && rows[i].number == edits - i)
  }

  /** The history after `run`: at most ten versions, numbered downwards from the number of edits to 1,
      the three newest among them, each as the edit of its number wrote it. */
  ghost predicate Faithful(rows: seq<Version>, run: seq<Edit>) {
    && Listed(rows) && |rows| <= MAX_VERSIONS
    && AsWritten(rows, run) && NewestAre(rows, |run|)
    && (rows != [] ==> rows[|rows| - 1].number == 1)
  }

  /** The first row is above all others. */
  lemma FirstIsAbove(rows: seq<Version>)
    requires Listed(rows) && rows != []
    ensures Listed(rows[1..])
    ensures forall u | u in rows[1..] :: u.number < rows[0].number && u.id != rows[0].id
  {
    var rest := rows[1..];
    assert forall i | 0 <= i < |rest| :: rest[i] == rows[i + 1];
  }

  lemma PutInFront(v: Version, rest: seq<Version>)
    requires Listed(rest) && forall u | u in rest :: u.number < v.number && u.id != v.id
    ensures Listed([v] + rest)
  {
    var all := [v] + rest;
    forall i, j | 0 <= i < j < |all| ensures all[i].number > all[j].number && all[i].id != all[j].id {
      assert all[j] == rest[j - 1] && all[j] in rest;
      if i > 0 { assert all[i] == rest[i - 1]; }
    }
  }

  lemma {:induction false} WithoutKeepsOrder(rows: seq<Version>, ids: seq<nat>)
    requires Listed(rows)
    ensures Listed(Without(rows, ids))
  {
    if rows != [] {
      var rest := Without(rows[1..], ids);
      FirstIsAbove(rows);
      WithoutKeepsOrder(rows[1..], ids);
      SurvivorsAre(rows[1..], ids);
      PutInFront(rows[0], rest);
      assert Without(rows, ids) == if rows[0].id in ids then rest else [rows[0]] + rest;
    }
  }

  lemma PrefixInFront<T>(x: T, s: seq<T>, n: nat)
    requires n <= |s|
    ensures ([x] + s)[..n + 1] == [x] + s[..n]
  {
  }

  /** Deleting nothing up to position `n` leaves these rows in place. */
  lemma {:induction false} FrontStays(rows: seq<Version>, ids: seq<nat>, n: nat)
    requires n <= |rows| && forall i | 0 <= i < n :: rows[i].id !in ids
    ensures n <= |Without(rows, ids)| && Without(rows, ids)[..n] == rows[..n]
  {
    if n > 0 {
      assert rows == [rows[0]] + rows[1..];
      FrontStays(rows[1..], ids, n - 1);
      PrefixInFront(rows[0], rows[1..], n - 1);
      PrefixInFront(rows[0], Without(rows[1..], ids), n - 1);
    }
  }

  lemma {:induction false} LastStays(rows: seq<Version>, ids: seq<nat>)
    requires rows != [] && rows[|rows| - 1].id !in ids
    ensures var w := Without(rows, ids); w != [] && w[|w| - 1] == rows[|rows| - 1]
  {
    if |rows| > 1 {
      LastStays(rows[1..], ids);
    } else {
      assert Without(rows[1..], ids) == [];
    }
  }

  lemma DeletedSpareEnds(rows: seq<Version>, now: int)
    requires DistinctIds(rows) && |rows| > MAX_VERSIONS
    ensures forall i | 0 <= i < 3 :: rows[i].id !in DeleteIds(rows, now)
    ensures rows[|rows| - 1].id !in DeleteIds(rows, now)
  {
    DeletedAre(rows, now);
    KeepIdsSize(rows, now);
    forall i | 0 <= i < 3 ensures rows[i].id in KeepIds(rows, now) { PrefixIds(rows, 3, i); }
    assert forall id | id in DeleteIds(rows, now) :: id in Elements(DeleteIds(rows, now));
  }

  /** Culling never touches the newest three nor the oldest. */
  lemma CulledKeepsEnds(rows: seq<Version>, now: int)
    requires Listed(rows) && |rows| > MAX_VERSIONS
    ensures var w := Culled(rows, now);
      && Listed(w) && 5 <= |w| <= MAX_VERSIONS
      && w[..3] == rows[..3] && w[|w| - 1] == rows[|rows| - 1]
      && forall v | v in w :: v in rows
  {
    SurvivorCount(rows, now);
    DeletedSpareEnds(rows, now);
    FrontStays(rows, DeleteIds(rows, now), 3);
    LastStays(rows, DeleteIds(rows, now));
    WithoutKeepsOrder(rows, DeleteIds(rows, now));
    SurvivorsAre(rows, DeleteIds(rows, now));
  }

  lemma {:induction false} WithoutNothing(rows: seq<Version>)
    ensures Without(rows, []) == rows
  {
    if rows != [] { WithoutNothing(rows[1..]); }
  }

  lemma OneMoreWritten(rows: seq<Version>, run: seq<Edit>, v: Version)
    requires run != [] && AsWritten(rows, run[..|run| - 1])
    requires v.number == |run| && WrittenBy(v, run)
    ensures AsWritten([v] + rows, run)
  {
    forall u | u in [v] + rows ensures WrittenBy(u, run) {
      if u != v {
        assert u in rows && WrittenBy(u, run[..|run| - 1]);
        assert run[..|run| - 1][u.number - 1] == run[u.number - 1];
      }
    }
  }

  lemma OneMoreListed(rows: seq<Version>, v: Version)
    requires Listed(rows) && v.id !in Ids(rows) && (rows != [] ==> rows[0].number < v.number)
    ensures Listed([v] + rows)
  {
    forall u | u in rows ensures u.number < v.number && u.id != v.id {
      assert u.id in Ids(rows);
      if u != rows[0] { FirstIsAbove(rows); }
    }
    PutInFront(v, rows);
  }

  lemma NewestAt(rows: seq<Version>, edits: nat, i: nat)
    requires NewestAre(rows, edits) && i < 3 && i < edits
    ensures i < |rows| && rows[i].number == edits - i
  {
  }

  lemma OneMoreNewest(rows: seq<Version>, edits: nat, v: Version)
    requires NewestAre(rows, edits) && v.number == edits + 1
    ensures NewestAre([v] + rows, edits + 1)
  {
    var more := [v] + rows;
    forall i | 0 <= i < 3 && i < edits + 1 ensures i < |more| && more[i].number == edits + 1 - i {
      if i > 0 { NewestAt(rows, edits, i - 1); }
    }
  }

  lemma NextIsCount(rows: seq<Version>, run: seq<Edit>)
    requires Faithful(rows, run)
    ensures NextNumber(rows) == |run| + 1
  {
    if run != [] { assert rows[0].number == |run| - 0; }
  }

  /** The row of the last edit of `run`. */
  function LastVersion(rows: seq<Version>, run: seq<Edit>): Version
    requires run != []
  {
    var e := run[|run| - 1];
    Version(e.id, NextNumber(rows), e.content, e.createdAt)
  }

  /** The uncut list after the last edit. */
  lemma OneMoreVersion(rows: seq<Version>, run: seq<Edit>)
    requires run != [] && Faithful(rows, run[..|run| - 1]) && run[|run| - 1].id !in Ids(rows)
    ensures var more := [LastVersion(rows, run)] + rows;
      && NextNumber(rows) == |run|
      && Listed(more) && AsWritten(more, run) && NewestAre(more, |run|) && more[|more| - 1].number == 1
  {
    var v := LastVersion(rows, run);
    NextIsCount(rows, run[..|run| - 1]);
    assert rows != [] ==> rows[0].number < v.number;
    OneMoreListed(rows, v);
    OneMoreWritten(rows, run, v);
    OneMoreNewest(rows, |run| - 1, v);
  }

  /** A list that begins and ends like a longer one, and takes its rows from it. */
  lemma EndsDecide(more: seq<Version>, w: seq<Version>, run: seq<Edit>)
    requires Listed(w) && 3 <= |w| <= MAX_VERSIONS && |more| >= 3 && w[..3] == more[..3]
    requires w[|w| - 1] == more[|more| - 1]
    requires forall v | v in w :: v in more
    requires AsWritten(more, run) && NewestAre(more, |run|) && more[|more| - 1].number == 1
    ensures Faithful(w, run)
  {
    forall i | 0 <= i < 3 && i < |run| ensures i < |w| && w[i].number == |run| - i {
      assert w[i] == w[..3][i] == more[..3][i] == more[i];
    }
  }

  lemma CullingKeepsFaithful(more: seq<Version>, now: int, run: seq<Edit>)
    requires more != [] && Listed(more) && AsWritten(more, run) && NewestAre(more, |run|)
    requires more[|more| - 1].number == 1
    ensures Faithful(Culled(more, now), run)
  {
    if |more| > MAX_VERSIONS {
      CulledKeepsEnds(more, now);
      SurvivorsAre(more, DeleteIds(more, now));
      EndsDecide(more, Culled(more, now), run);
    } else {
      WithoutNothing(more);
    }
  }

  /** The last edit keeps the history faithful, and its number is the count of edits, whatever was deleted. */
  lemma EditKeepsFaithful(rows: seq<Version>, run: seq<Edit>)
    requires run != [] && Faithful(rows, run[..|run| - 1]) && run[|run| - 1].id !in Ids(rows)
    ensures Faithful(AfterEdit(rows, run[|run| - 1]), run)
    ensures NextNumber(rows) == |run|
  {
    OneMoreVersion(rows, run);
    CullingKeepsFaithful([LastVersion(rows, run)] + rows, run[|run| - 1].now, run);
  }

  lemma RunKeepsFaithful(run: seq<Edit>)
    requires run != [] && var before := run[..|run| - 1];
      Faithful(AfterRun([], before), before) && run[|run| - 1].id !in Ids(AfterRun([], before))
    ensures Faithful(AfterRun([], run), run)
  {
    EditKeepsFaithful(AfterRun([], run[..|run| - 1]), run);
    assert AfterRun([], run) == AfterEdit(AfterRun([], run[..|run| - 1]), run[|run| - 1]);
  }

  /** Over every run of edits, whatever the clock shows: at most ten versions, version 1 and the three
      newest always among them, numbers never reused, and every survivor as it was written. */
  lemma {:induction false} HistoryIsFaithful(run: seq<Edit>)
    requires FreshIds([], run)
    ensures Faithful(AfterRun([], run), run)
    ensures NextNumber(AfterRun([], run)) == |run| + 1
    decreases |run|
  {
    if run != [] {
      HistoryIsFaithful(run[..|run| - 1]);
      RunKeepsFaithful(run);
    }
    NextIsCount(AfterRun([], run), run);
  }

  // ---------- Small histories, and the windows after an edit ----------

  /** Up to ten versions nothing is deleted. */
  lemma SmallHistoryStays(rows: seq<Version>, now: int)
    requires |rows| <= 10
    ensures Culled(rows, now) == rows
  {
    WithoutNothing(rows);
  }

  /** All versions written so far, newest first. */
  ghost predicate AllThere(rows: seq<Version>, run: seq<Edit>) {
    |rows| == |run| && forall i | 0 <= i < |run| :: rows[i].number == |run| - i && WrittenBy(rows[i], run)
  }

  lemma OneMoreThere(rows: seq<Version>, run: seq<Edit>)
    requires run != [] && AllThere(rows, run[..|run| - 1])
    ensures AllThere([LastVersion(rows, run)] + rows, run)
  {
    var before, more := run[..|run| - 1], [LastVersion(rows, run)] + rows;
    assert rows != [] ==> rows[0].number == |before|;
    forall i | 0 <= i < |run| ensures more[i].number == |run| - i && WrittenBy(more[i], run) {
      if i > 0 {
        assert more[i] == rows[i - 1] && WrittenBy(rows[i - 1], before);
        assert before[rows[i - 1].number - 1] == run[rows[i - 1].number - 1];
      }
    }
  }

  /** Over every run: no version is missing if and only if there were at most ten edits. */
  lemma {:induction false} TenEditsStay(run: seq<Edit>)
    requires FreshIds([], run)
    ensures AllThere(AfterRun([], run), run) <==> |run| <= 10
    decreases |run|
  {
    HistoryIsFaithful(run);
    if run != [] && |run| <= 10 {
      var before := AfterRun([], run[..|run| - 1]);
      TenEditsStay(run[..|run| - 1]);
      OneMoreThere(before, run);
      SmallHistoryStays([LastVersion(before, run)] + before, run[|run| - 1].now);
    }
  }

  /** An edit leaves no window of the hour, day or week before it empty that held a version, the new one included. */
  lemma EditKeepsWindows(rows: seq<Version>, e: Edit, age: int, v: Version)
    requires DistinctIds(rows) && e.id !in Ids(rows) && age in {3600, 86400, 604800}
    requires v in rows || v == Version(e.id, NextNumber(rows), e.content, e.createdAt)
    requires v.createdAt >= e.now - age
    ensures exists u :: u in AfterEdit(rows, e) && u.createdAt >= e.now - age
  {
    var more := [Version(e.id, NextNumber(rows), e.content, e.createdAt)] + rows;
    assert v in more;
    if |more| <= 10 {
      SmallHistoryStays(more, e.now);
    } else {
      assert DistinctIds(more) by { assert forall i | 0 <= i < |rows| :: rows[i].id in Ids(rows); }
      WindowsKeepAVersion(more, e.now, age, v);
    }
  }
}
