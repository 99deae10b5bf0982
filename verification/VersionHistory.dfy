/** Version history as it runs: the loops that collect the ids to keep, and the deletion. */
module VersionHistory {
  import opened Common
  import opened VersionModel
  import VersionRuns

  lemma IdsStep(rows: seq<Version>, i: nat)
    requires i < |rows|
    ensures Ids(rows[..i + 1]) == Ids(rows[..i]) + {rows[i].id}
  {
    assert rows[..i + 1] == rows[..i] + [rows[i]];
  }

  lemma FreshStep(rows: seq<Version>, i: nat, start: int, keep: set<nat>)
    requires i < |rows|
    ensures FirstFresh(rows[i..], start, keep) ==
      if rows[i].createdAt >= start && rows[i].id !in keep then Some(rows[i].id)
      else FirstFresh(rows[i + 1..], start, keep)
  {
    assert rows[i..][0] == rows[i] && rows[i..][1..] == rows[i + 1..];
  }

  class History {
    /** The rows of one worksheet, in the table's default order: newest version number first. */
    var rows: seq<Version>

    constructor ()
      ensures rows == []
    {
      rows := [];
    }

    method CreateVersion(content: string, id: nat, createdAt: int, now: int) returns (version: Version)
      requires DistinctIds(rows) && id !in Ids(rows)
      modifies this
      ensures rows == VersionRuns.AfterEdit(old(rows), VersionRuns.Edit(content, id, createdAt, now))
      ensures version == Version(id, VersionRuns.NextNumber(old(rows)), content, createdAt)
    {
      var next := if rows == [] then 1 else rows[0].number + 1;
      version := Version(id, next, content, createdAt);
      assert forall i | 0 <= i < |rows| :: rows[i].id in Ids(rows);
      rows := [version] + rows;
      var _ := Cull(now);
    }

    method Cull(now: int) returns (deleted: nat)
      requires DistinctIds(rows)
      modifies this
      ensures rows == Culled(old(rows), now)
      ensures deleted == |old(rows)| - |rows|
      ensures |old(rows)| <= 10 ==> rows == old(rows) && deleted == 0
    {
      var versions := rows;
      if |versions| <= MAX_VERSIONS {
        VersionRuns.WithoutNothing(versions);
        return 0;
      }
      var keep := Kept(versions, now);
      var deleteIds := Outside(versions, keep);
      if |versions| - |deleteIds| < MAX_VERSIONS / 2 {
        deleteIds := Prefix(deleteIds, |versions| - MAX_VERSIONS);
      }
      SurvivorCount(versions, now);
      rows := Without(versions, deleteIds);
      deleted := |deleteIds|;
    }

    static method Kept(versions: seq<Version>, now: int) returns (keep: set<nat>)
      requires |versions| > MAX_VERSIONS
      ensures keep == KeepIds(versions, now)
    {
      keep := {};
      for i := 0 to 3
        invariant keep == Ids(versions[..i])
      {
        IdsStep(versions, i);
        keep := keep + {versions[i].id};
      }
      for bucket := 0 to 3
        invariant keep == KeepAfter(versions, now, bucket)
      {
        ghost var kept := keep;
        var i := 0;
        while i < |versions|
          invariant 0 <= i <= |versions| && keep == kept
          invariant FirstFresh(versions[i..], WindowStart(now, bucket), kept)
            == FirstFresh(versions, WindowStart(now, bucket), kept)
        {
          FreshStep(versions, i, WindowStart(now, bucket), kept);
          if versions[i].createdAt >= WindowStart(now, bucket) && versions[i].id !in keep {
            keep := keep + {versions[i].id};
            break;
          }
          i := i + 1;
        }
        assert i == |versions| ==> versions[i..] == [];
      }
      keep := keep + {versions[|versions| - 1].id};
    }

    static method Outside(versions: seq<Version>, keep: set<nat>) returns (ids: seq<nat>)
      ensures ids == IdsOutside(versions, keep)
    {
      ids := [];
      for i := 0 to |versions|
        invariant ids + IdsOutside(versions[i..], keep) == IdsOutside(versions, keep)
      {
        assert versions[i..][0] == versions[i] && versions[i..][1..] == versions[i + 1..];
        if versions[i].id !in keep { ids := ids + [versions[i].id]; }
      }
    }
  }
}
