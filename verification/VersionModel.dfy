/** Worksheet version history: which versions culling keeps, and what that means over whole runs. */
module VersionModel {
  import opened Common

  datatype Version = Version(id: nat, number: int, content: string, createdAt: int)

  const MAX_VERSIONS := 10
  const HOUR := 3600
  const DAY := 24 * HOUR
  const WEEK := 7 * DAY

  // ---------- Culling ----------

  function Ids(rows: seq<Version>): set<nat> { set v | v in rows :: v.id }

  /** The first listed version in the window that is not kept yet. */
  function FirstFresh(rows: seq<Version>, start: int, keep: set<nat>): Option<nat> {
    if rows == [] then None
    else if rows[0].createdAt >= start && rows[0].id !in keep then Some(rows[0].id)
    else FirstFresh(rows[1..], start, keep)
  }

  /** The windows of the last hour, day and week. */
  function WindowStart(now: int, bucket: nat): int {
    now - if bucket == 0 then HOUR else if bucket == 1 then DAY else WEEK
  }

  /** The ids kept after the newest three and so many windows have been seen to. */
  function KeepAfter(rows: seq<Version>, now: int, buckets: nat): set<nat> {
    if buckets == 0 then Ids(if |rows| < 3 then rows else rows[..3]) else
    var keep := KeepAfter(rows, now, buckets - 1);
    match FirstFresh(rows, WindowStart(now, buckets - 1), keep)
    case None => keep
    case Some(id) => keep + {id}
  }

  function KeepIds(rows: seq<Version>, now: int): set<nat>
    requires rows != []
  {
    KeepAfter(rows, now, 3) + {rows[|rows| - 1].id}
  }

  function IdsOutside(rows: seq<Version>, keep: set<nat>): seq<nat> {
    if rows == [] then []
    else (if rows[0].id in keep then [] else [rows[0].id]) + IdsOutside(rows[1..], keep)
  }

  function Prefix<T>(s: seq<T>, n: nat): seq<T> { if |s| < n then s else s[..n] }

  /** The ids that culling deletes, in listing order. */
  function DeleteIds(rows: seq<Version>, now: int): seq<nat> {
    if |rows| <= MAX_VERSIONS then [] else
    var outside := IdsOutside(rows, KeepIds(rows, now));
    if |rows| - |outside| < MAX_VERSIONS / 2 then Prefix(outside, |rows| - MAX_VERSIONS) else outside
  }

  function Without(rows: seq<Version>, ids: seq<nat>): seq<Version> {
    if rows == [] then []
    else (if rows[0].id in ids then [] else [rows[0]]) + Without(rows[1..], ids)
  }

  function Culled(rows: seq<Version>, now: int): seq<Version> { Without(rows, DeleteIds(rows, now)) }

  /** Newest first, by version number, with distinct primary keys. */
  ghost predicate Listed(rows: seq<Version>) {
    && (forall i, j | 0 <= i < j < |rows| :: rows[i].number > rows[j].number)
    && DistinctIds(rows)
  }

  ghost predicate DistinctIds(rows: seq<Version>) {
    forall i, j | 0 <= i < j < |rows| :: rows[i].id != rows[j].id
  }

  // ---------- Counting ----------

  lemma FirstId(rows: seq<Version>)
    requires rows != [] && DistinctIds(rows)
    ensures Ids(rows) == {rows[0].id} + Ids(rows[1..]) && rows[0].id !in Ids(rows[1..]) && DistinctIds(rows[1..])
  {
    assert rows == [rows[0]] + rows[1..];
    assert forall i | 0 <= i < |rows| - 1 :: rows[1..][i] == rows[i + 1];
  }

  lemma {:induction false} IdsCount(rows: seq<Version>)
    requires DistinctIds(rows)
    ensures |Ids(rows)| == |rows|
  {
    if rows != [] {
      FirstId(rows);
      IdsCount(rows[1..]);
    }
  }

  function Elements(ids: seq<nat>): set<nat> { set id | id in ids }

  predicate Distinct(ids: seq<nat>) { forall i, j | 0 <= i < j < |ids| :: ids[i] != ids[j] }

  lemma {:induction false} OutsideIs(rows: seq<Version>, keep: set<nat>)
    requires DistinctIds(rows)
    ensures Elements(IdsOutside(rows, keep)) == Ids(rows) - keep
    ensures Distinct(IdsOutside(rows, keep))
  {
    if rows != [] {
      var id, rest := rows[0].id, rows[1..];
      OutsideIs(rest, keep);
      assert rows == [rows[0]] + rest;
      assert Ids(rows) == {id} + Ids(rest);
      assert id !in Ids(rest) && id !in Elements(IdsOutside(rest, keep));
      assert Elements(IdsOutside(rows, keep)) == (if id in keep then {} else {id}) + Elements(IdsOutside(rest, keep));
    }
  }

  lemma {:induction false} ElementsCount(ids: seq<nat>)
    requires Distinct(ids)
    ensures |Elements(ids)| == |ids|
  {
    if ids != [] {
      ElementsCount(ids[1..]);
      assert ids == [ids[0]] + ids[1..];
      assert Elements(ids) == {ids[0]} + Elements(ids[1..]);
      assert ids[0] !in Elements(ids[1..]);
    }
  }

  lemma OutsideCount(rows: seq<Version>, keep: set<nat>)
    requires DistinctIds(rows) && keep <= Ids(rows)
    ensures |IdsOutside(rows, keep)| == |rows| - |keep|
  {
    OutsideIs(rows, keep);
    ElementsCount(IdsOutside(rows, keep));
    IdsCount(rows);
    assert Ids(rows) == keep + (Ids(rows) - keep);
  }

  lemma {:induction false} WithoutIsOutside(rows: seq<Version>, ids: seq<nat>)
    ensures |Without(rows, ids)| == |IdsOutside(rows, Elements(ids))|
  {
    if rows != [] { WithoutIsOutside(rows[1..], ids); }
  }

  lemma WithoutCount(rows: seq<Version>, ids: seq<nat>)
    requires DistinctIds(rows) && Distinct(ids) && Elements(ids) <= Ids(rows)
    ensures |Without(rows, ids)| == |rows| - |ids|
  {
    WithoutIsOutside(rows, ids);
    OutsideCount(rows, Elements(ids));
    ElementsCount(ids);
  }

  /** Survivors are the rows whose id is not deleted. */
  lemma {:induction false} SurvivorsAre(rows: seq<Version>, ids: seq<nat>)
    ensures forall v :: v in Without(rows, ids) <==> v in rows && v.id !in ids
  {
    if rows != [] {
      SurvivorsAre(rows[1..], ids);
      assert rows == [rows[0]] + rows[1..];
    }
  }

  lemma {:induction false} FreshIsListed(rows: seq<Version>, start: int, keep: set<nat>)
    ensures var f := FirstFresh(rows, start, keep);
      && (f.Some? ==> f.value !in keep && exists v :: v in rows && v.id == f.value && v.createdAt >= start)
      && (f.None? ==> forall v | v in rows && v.createdAt >= start :: v.id in keep)
  {
    if rows != [] {
      FreshIsListed(rows[1..], start, keep);
      assert rows == [rows[0]] + rows[1..];
    }
  }

  lemma NewestThree(rows: seq<Version>)
    requires DistinctIds(rows) && |rows| >= 3
    ensures |Ids(rows[..3])| == 3 && Ids(rows[..3]) <= Ids(rows)
  {
    IdsCount(rows[..3]);
    assert forall v | v in rows[..3] :: v in rows;
  }

  lemma WindowAddsOne(rows: seq<Version>, start: int, keep: set<nat>)
    requires keep <= Ids(rows)
    ensures var f := FirstFresh(rows, start, keep);
      f.Some? ==> |keep + {f.value}| == |keep| + 1 && keep + {f.value} <= Ids(rows)
  {
    FreshIsListed(rows, start, keep);
  }

  lemma KeepStep(rows: seq<Version>, now: int, buckets: nat)
    requires KeepAfter(rows, now, buckets) <= Ids(rows)
    ensures var (keep, more) := (KeepAfter(rows, now, buckets), KeepAfter(rows, now, buckets + 1));
      keep <= more <= Ids(rows) && |keep| <= |more| <= |keep| + 1
  {
    WindowAddsOne(rows, WindowStart(now, buckets), KeepAfter(rows, now, buckets));
  }

  /** After each window: the newest three are kept, and at most one more id per window. */
  lemma {:induction false} KeepSize(rows: seq<Version>, now: int, buckets: nat)
    requires DistinctIds(rows) && |rows| >= 3
    ensures 3 <= |KeepAfter(rows, now, buckets)| <= 3 + buckets
    ensures Ids(rows[..3]) <= KeepAfter(rows, now, buckets) <= Ids(rows)
  {
    if buckets == 0 {
      NewestThree(rows);
    } else {
      KeepSize(rows, now, buckets - 1);
      KeepStep(rows, now, buckets - 1);
    }
  }

  lemma KeepIdsSize(rows: seq<Version>, now: int)
    requires DistinctIds(rows) && |rows| > MAX_VERSIONS
    ensures 4 <= |KeepIds(rows, now)| <= 7
    ensures Ids(rows[..3]) <= KeepIds(rows, now) <= Ids(rows)
  {
    KeepSize(rows, now, 3);
    var last := rows[|rows| - 1].id;
    IdsCount(rows[..3]);
    assert last !in Ids(rows[..3]);
    assert |Ids(rows[..3]) + {last}| == 4;
    assert Ids(rows[..3]) + {last} <= KeepIds(rows, now);
    SubsetSize(Ids(rows[..3]) + {last}, KeepIds(rows, now));
  }

  // ---------- The outcome of one culling ----------

  /** Too few would be left, so the branch that limits the deletion is taken. */
  predicate FallsBack(rows: seq<Version>, now: int)
    requires rows != []
  {
    |rows| > MAX_VERSIONS && |KeepIds(rows, now)| == 4
  }

  /** The deleted ids are distinct, none of them is to be kept, and their number. */
  lemma DeletedAre(rows: seq<Version>, now: int)
    requires DistinctIds(rows) && |rows| > MAX_VERSIONS
    ensures var gone := DeleteIds(rows, now);
      && Distinct(gone) && Elements(gone) <= Ids(rows) - KeepIds(rows, now)
      && |gone| == |rows| - if FallsBack(rows, now) then MAX_VERSIONS else |KeepIds(rows, now)|
    ensures 4 <= |KeepIds(rows, now)| <= 7
  {
    var keep := KeepIds(rows, now);
    var outside := IdsOutside(rows, keep);
    KeepIdsSize(rows, now);
    OutsideCount(rows, keep);
    OutsideIs(rows, keep);
    PrefixOfDistinct(outside, |rows| - MAX_VERSIONS);
    assert DeleteIds(rows, now) == if |keep| == 4 then Prefix(outside, |rows| - MAX_VERSIONS) else outside;
  }

  lemma PrefixOfDistinct(ids: seq<nat>, n: nat)
    requires Distinct(ids)
    ensures Distinct(Prefix(ids, n)) && Elements(Prefix(ids, n)) <= Elements(ids)
  {
    assert forall i | 0 <= i < |Prefix(ids, n)| :: Prefix(ids, n)[i] == ids[i];
  }

  /** Culling more than ten versions leaves 5, 6 or 7 of them, or exactly ten in the fallback. */
  lemma SurvivorCount(rows: seq<Version>, now: int)
    requires DistinctIds(rows) && |rows| > MAX_VERSIONS
    ensures |Culled(rows, now)| == if FallsBack(rows, now) then 10 else |KeepIds(rows, now)|
    ensures !FallsBack(rows, now) ==> |Culled(rows, now)| in {5, 6, 7}
    ensures |DeleteIds(rows, now)| == |rows| - |Culled(rows, now)|
  {
    DeletedAre(rows, now);
    WithoutCount(rows, DeleteIds(rows, now));
  }

  /** Nothing that was to be kept is deleted. */
  lemma KeptSurvive(rows: seq<Version>, now: int)
    requires DistinctIds(rows) && |rows| > MAX_VERSIONS
    ensures forall v | v in rows && v.id in KeepIds(rows, now) :: v in Culled(rows, now)
  {
    OutsideIs(rows, KeepIds(rows, now));
    SurvivorsAre(rows, DeleteIds(rows, now));
    assert forall id | id in DeleteIds(rows, now) :: id in Elements(IdsOutside(rows, KeepIds(rows, now)));
  }

  lemma {:induction false} KeepGrows(rows: seq<Version>, now: int, i: nat, j: nat)
    requires i <= j
    ensures KeepAfter(rows, now, i) <= KeepAfter(rows, now, j)
    decreases j
  {
    if i < j { KeepGrows(rows, now, i, j - 1); }
  }

  /** Every window that holds a version before culling holds one afterwards. */
  lemma WindowsKeepAVersion(rows: seq<Version>, now: int, age: int, v: Version)
    requires DistinctIds(rows) && |rows| > 10 && age in {3600, 86400, 604800}
    requires v in rows && v.createdAt >= now - age
    ensures exists u :: u in Culled(rows, now) && u.createdAt >= now - age
  {
    var bucket := if age == 3600 then 0 else if age == 86400 then 1 else 2;
    assert WindowStart(now, bucket) == now - age;
    var keep := KeepAfter(rows, now, bucket);
    FreshIsListed(rows, WindowStart(now, bucket), keep);
    var f := FirstFresh(rows, WindowStart(now, bucket), keep);
    KeepGrows(rows, now, bucket, bucket + 1);
    KeepGrows(rows, now, bucket + 1, 3);
    KeptSurvive(rows, now);
    var u: Version;
    if f.None? {
      u := v;
    } else {
      u :| u in rows && u.id == f.value && u.createdAt >= WindowStart(now, bucket);
    }
    assert u.id in KeepAfter(rows, now, bucket + 1);
    assert u.id in KeepIds(rows, now);
    assert u in Culled(rows, now);
  }

  /** What the slice of the fallback removes: the newest versions outside the kept ones, so that every
      deleted version is newer than every other surviving one. */
  lemma {:induction false} PrefixIsNewest(rows: seq<Version>, keep: set<nat>, n: nat, gone: Version, spared: Version)
    requires Listed(rows) && n <= |IdsOutside(rows, keep)|
    requires gone in rows && gone.id in IdsOutside(rows, keep)[..n]
    requires spared in rows && spared.id !in keep && spared.id !in IdsOutside(rows, keep)[..n]
    ensures gone.number > spared.number
  {
    var first, rest := rows[0], rows[1..];
    assert rows == [first] + rest;
    assert Listed(rest);
    if first.id in keep {
      OutsideSkips(rows, keep);
      assert gone != first && spared != first;
      PrefixIsNewest(rest, keep, n, gone, spared);
    } else {
      OutsideTakes(rows, keep, n);
      assert spared in rest;
      if gone in rest {
        assert gone.id != first.id;
        PrefixIsNewest(rest, keep, n - 1, gone, spared);
      }
    }
  }

  /** A kept first row contributes nothing. */
  lemma OutsideSkips(rows: seq<Version>, keep: set<nat>)
    requires rows != [] && rows[0].id in keep && DistinctIds(rows)
    ensures IdsOutside(rows, keep) == IdsOutside(rows[1..], keep)
    ensures forall id | id in IdsOutside(rows, keep) :: id !in keep
  {
    OutsideIs(rows, keep);
    assert forall id | id in IdsOutside(rows, keep) :: id in Elements(IdsOutside(rows, keep));
  }

  /** Any other first row comes first. */
  lemma OutsideTakes(rows: seq<Version>, keep: set<nat>, n: nat)
    requires rows != [] && rows[0].id !in keep && 0 < n <= |IdsOutside(rows, keep)|
    ensures n - 1 <= |IdsOutside(rows[1..], keep)|
    ensures IdsOutside(rows, keep)[..n] == [rows[0].id] + IdsOutside(rows[1..], keep)[..n - 1]
  {
  }

  lemma FallbackDeletesNewest(rows: seq<Version>, now: int, gone: Version, spared: Version)
    requires Listed(rows) && rows != [] && FallsBack(rows, now)
    requires gone in rows && gone !in Culled(rows, now)
    requires spared in Culled(rows, now) && spared.id !in KeepIds(rows, now)
    ensures gone.number > spared.number
  {
    var keep := KeepIds(rows, now);
    SurvivorsAre(rows, DeleteIds(rows, now));
    KeepIdsSize(rows, now);
    OutsideCount(rows, keep);
    PrefixIsNewest(rows, keep, |rows| - MAX_VERSIONS, gone, spared);
  }
}
