/** Small vocabulary shared by all components. */
module Common {
  datatype Option<+T> = None | Some(value: T)

  datatype Result<+T, +E> = Ok(value: T) | Err(error: E)

  ghost predicate IsTop(s: set<nat>, at: map<nat, int>, m: nat)
    requires s <= at.Keys
  {
    m in s && forall x | x in s :: at[x] <= at[m]
  }

  lemma TopExists(s: set<nat>, at: map<nat, int>) returns (m: nat)
    requires s != {} && s <= at.Keys
    ensures IsTop(s, at, m)
  {
    var a :| a in s;
    m := a;
    if s != {a} {
      var r := TopExists(s - {a}, at);
      m := if at[a] < at[r] then r else a;
      forall x | x in s ensures at[x] <= at[m] {
        assert x == a || x in s - {a};
      }
    }
  }

  lemma SubsetSize(a: set<nat>, b: set<nat>)
    requires a <= b
    ensures |a| <= |b|
  {
    assert b == a + (b - a);
  }

  lemma LeastExists(s: set<nat>)
    requires s != {}
    ensures exists m :: m in s && forall x | x in s :: m <= x
  {
    var m := TopExists(s, map x | x in s :: -x);
    assert forall x | x in s :: m <= x;
  }

  /** `first()` on a query without an explicit ordering: Django orders by primary key. */
  function First(s: set<nat>): (r: Option<nat>)
    ensures r.None? <==> s == {}
    ensures r.Some? ==> r.value in s && forall x | x in s :: r.value <= x
  {
    if s == {} then None else
      LeastExists(s);
      var m :| m in s && forall x | x in s :: m <= x;
      Some(m)
  }

  /** `order_by('-at').first()`; rows with equal stamps come in primary-key order. */
  function MostRecent(s: set<nat>, at: map<nat, int>): (r: Option<nat>)
    requires s <= at.Keys
    ensures r.None? <==> s == {}
    ensures r.Some? ==> r.value in s && forall x | x in s :: at[x] <= at[r.value]
  {
    if s == {} then None else
      var newest := set x | x in s && forall y | y in s :: at[y] <= at[x];
      assert newest != {} by {
        var m := TopExists(s, at);
        assert m in newest;
      }
      First(newest)
  }

  /** A listing of a table without an explicit ordering: each row once, in some order. */
  ghost predicate IsListing<T(!new)>(order: seq<T>, rows: set<T>) {
    && (forall i, j | 0 <= i < j < |order| :: order[i] != order[j])
    && (forall x :: x in order <==> x in rows)
  }
}
