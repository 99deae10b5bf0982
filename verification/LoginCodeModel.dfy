/** Login codes: the sliding-window limiter, expiry, verification and the nightly cleanup. */
module LoginCodeModel {
  import opened Common
  import Text

  const MINUTE := 60
  const WINDOW := 10 * MINUTE
  const DAY := 24 * 60 * MINUTE

  datatype LoginCode = LoginCode(email: string, code: string, createdAt: int, expiresAt: int, verifiedAt: Option<int>)

  type Table = map<nat, LoginCode>

  datatype Error = TooMany | Unauthorized | MultipleObjectsReturned

  datatype Outcome = Outcome(table: Table, result: Result<nat, Error>)

  function Recent(t: Table, email: string, since: int): set<nat> {
    set id | id in t && t[id].email == email && t[id].createdAt >= since
  }

  /** Rows that still count: not used, not expired. */
  function Live(t: Table, email: string, now: int): set<nat> {
    set id | id in t && t[id].email == email && t[id].verifiedAt.None? && t[id].expiresAt > now
  }

  function Matching(t: Table, email: string, code: string, now: int): set<nat> {
    set id | id in Live(t, email, now) && t[id].code == code
  }

  /** The clock is read for the window, then for the expiry, then for the creation stamp. */
  function RequestCode(t: Table, id: nat, email: string, code: string, t0: int, t1: int, t2: int): Outcome {
    var e := Text.Lower(email);
    if |Recent(t, e, t0 - WINDOW)| >= 3 then Outcome(t, Err(TooMany))
    else Outcome(t[id := LoginCode(e, code, t2, t1 + WINDOW, None)], Ok(id))
  }

  /** The entered code is stripped; `get` fails on no row and on several rows. */
  function VerifyCode(t: Table, email: string, code: string, t0: int, t1: int): Outcome {
    var found := Matching(t, Text.Lower(email), Text.Strip(code), t0);
    if found == {} then Outcome(t, Err(Unauthorized))
    else if |found| > 1 then Outcome(t, Err(MultipleObjectsReturned))
    else
      var id := First(found).value;
      Outcome(t[id := t[id].(verifiedAt := Some(t1))], Ok(id))
  }

  function Cleanup(t: Table, now: int): Table {
    map id | id in t && t[id].createdAt >= now - DAY :: t[id]
  }

  // ---------- Runs ----------

  datatype Step =
    | Requesting(id: nat, email: string, code: string, t0: int, t1: int, t2: int)
    | Verifying(email: string, code: string, t0: int, t1: int)
    | Cleaning(t0: int)

  /** A creation as it happened, also after its row is gone. */
  datatype Creation = Creation(id: nat, email: string, at: int)

  datatype World = World(table: Table, clock: int, created: seq<Creation>, verified: seq<nat>)

  function Next(w: World, s: Step): World {
    match s
    case Requesting(id, email, code, t0, t1, t2) =>
      var o := RequestCode(w.table, id, email, code, t0, t1, t2);
      var created := if o.result.Ok? then w.created + [Creation(id, Text.Lower(email), t2)] else w.created;
      World(o.table, t2, created, w.verified)
    case Verifying(email, code, t0, t1) =>
      var o := VerifyCode(w.table, email, code, t0, t1);
      World(o.table, t1, w.created, if o.result.Ok? then w.verified + [o.result.value] else w.verified)
    case Cleaning(t0) => World(Cleanup(w.table, t0), t0, w.created, w.verified)
  }

  /** Time does not run backwards, and a new row gets a key that was never used. */
  predicate Possible(w: World, s: Step) {
    && w.clock <= s.t0
    && match s
       case Requesting(id, _, _, t0, t1, t2) => t0 <= t1 <= t2 && forall c | c in w.created :: c.id != id
       case Verifying(_, _, t0, t1) => t0 <= t1
       case Cleaning(_) => true
  }

  function Run(w: World, run: seq<Step>): World
    decreases |run|
  {
    if run == [] then w else Run(Next(w, run[0]), run[1..])
  }

  predicate PossibleRun(w: World, run: seq<Step>)
    decreases |run|
  {
    run == [] || (Possible(w, run[0]) && PossibleRun(Next(w, run[0]), run[1..]))
  }

  function Start(clock: int): World {
    World(map[], clock, [], [])
  }

  predicate WasCreated(created: seq<Creation>, id: nat) {
    exists i :: 0 <= i < |created| && created[i].id == id
  }

  /** Creations for the same address within the ten minutes up to and including creation `last`. */
  function Earlier(created: seq<Creation>, last: nat): set<nat>
    requires last < |created|
  {
    set i | 0 <= i < last && created[i].email == created[last].email && created[i].at >= created[last].at - WINDOW
  }

  /** Creations for an address in a closed span of ten minutes. */
  function InSpan(created: seq<Creation>, email: string, from: int): set<nat> {
    set i | 0 <= i < |created| && created[i].email == email && from <= created[i].at <= from + 600
  }
}
