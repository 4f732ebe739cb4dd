/** Run leases in the database: take-over on expiry, renewal, release, and the interval they protect. */
module Leases {
  import opened Common

  type Instance = string
  type RunId = string

  datatype Lease = Lease(owner: Instance, expiresAt: real)
  type Table = map<RunId, Lease>

  /** The upsert: it writes unless another instance holds a lease that has not expired. */
  function Upsert(table: Table, run: RunId, me: Instance, expiresAt: real, dbNow: real): Table {
    if run !in table || table[run].owner == me || table[run].expiresAt < dbNow then table[run := Lease(me, expiresAt)]
    else table
  }

  /** The owner of an unexpired lease. */
  function CurrentOwner(table: Table, run: RunId, dbNow: real): Option<Instance> {
    if run in table && table[run].expiresAt > dbNow then Some(table[run].owner) else None
  }

  class LeaseTable {
    var rows: Table

    constructor ()
      ensures rows == map[]
    {
      rows := map[];
    }

    /** One transaction. The expiry comes from the caller's own clock, the comparison from the database's. */
    method AcquireRunLease(run: RunId, me: Instance, callerNow: real, ttl: real, dbNow: real)
      returns (acquired: bool, owner: Option<Instance>)
      modifies this
      ensures rows == Upsert(old(rows), run, me, callerNow + ttl, dbNow)
      ensures owner == CurrentOwner(rows, run, dbNow) && (acquired <==> owner == Some(me))
      ensures var free := run !in old(rows) || old(rows)[run].owner == me || old(rows)[run].expiresAt < dbNow;
        && rows == (if free then old(rows)[run := Lease(me, callerNow + ttl)] else old(rows))
        && (acquired <==> free && callerNow + ttl > dbNow)
      ensures owner.Some? <==> rows[run].expiresAt > dbNow
      ensures owner.Some? ==> owner.value == rows[run].owner
    {
      var expiresAt := callerNow + ttl;
      if run !in rows {
        rows := rows[run := Lease(me, expiresAt)];
      } else if rows[run].owner == me || rows[run].expiresAt < dbNow {
        rows := rows[run := Lease(me, expiresAt)];
      }
      if rows[run].expiresAt > dbNow {
        return rows[run].owner == me, Some(rows[run].owner);
      }
      return false, None;
    }

    method ReleaseRunLease(run: RunId, me: Instance) returns (released: bool)
      modifies this
      ensures released <==> run in old(rows) && old(rows)[run].owner == me
      ensures rows == if released then old(rows) - {run} else old(rows)
    {
      if run in rows && rows[run].owner == me {
        rows := rows - {run};
        return true;
      }
      return false;
    }

    method CheckInstanceLeases(me: Instance, dbNow: real) returns (has: bool, held: set<RunId>)
      ensures forall run :: run in held <==> run in rows && rows[run].owner == me && rows[run].expiresAt > dbNow
      ensures has <==> held != {}
    {
      held := set run | run in rows && rows[run].owner == me && rows[run].expiresAt > dbNow;
      has := held != {};
    }
  }

  // ---- Any interleaving of instances ----

  datatype Op =
    | Acquire(run: RunId, me: Instance, expiresAt: real, dbNow: real)
    | Release(run: RunId, me: Instance)
    | Fail  // a transaction that raised and was rolled back

  function Apply(table: Table, op: Op): Table {
    match op
    case Acquire(run, me, expiresAt, dbNow) => Upsert(table, run, me, expiresAt, dbNow)
    case Release(run, me) => if run in table && table[run].owner == me then table - {run} else table
    case Fail => table
  }

  /** `op` is an acquire that reports success when it is applied to `table`. */
  predicate Grants(table: Table, op: Op) {
    op.Acquire? && CurrentOwner(Apply(table, op), op.run, op.dbNow) == Some(op.me)
  }

  ghost function After(table: Table, ops: seq<Op>): Table
    decreases |ops|
  {
    if ops == [] then table else After(Apply(table, ops[0]), ops[1..])
  }

  /** The holder neither releases the run nor writes an expiry before `until`. */
  ghost predicate HolderKeeps(ops: seq<Op>, run: RunId, holder: Instance, until: real) {
    forall i :: 0 <= i < |ops| ==>
      && (ops[i].Release? && ops[i].run == run ==> ops[i].me != holder)
      && (ops[i].Acquire? && ops[i].run == run && ops[i].me == holder ==> ops[i].expiresAt >= until)
  }

  ghost predicate NotLater(ops: seq<Op>, until: real) {
    forall i :: 0 <= i < |ops| && ops[i].Acquire? ==> ops[i].dbNow <= until
  }

  lemma {:induction false} HolderStays(table: Table, ops: seq<Op>, run: RunId, holder: Instance, until: real)
    requires run in table && table[run].owner == holder && table[run].expiresAt >= until
    requires HolderKeeps(ops, run, holder, until) && NotLater(ops, until)
    ensures run in After(table, ops) && After(table, ops)[run].owner == holder
    ensures After(table, ops)[run].expiresAt >= until
    decreases |ops|
  {
    if ops != [] {
      var op := ops[0];
      forall i | 0 <= i < |ops[1..]| ensures ops[1..][i] == ops[i+1] {
      }
      HolderStays(Apply(table, op), ops[1..], run, holder, until);
    }
  }

  /**
   Exclusivity: from a grant with stored expiry E on, no other instance is granted the run at any database
   time up to and including E, unless the holder released it or itself wrote an earlier expiry.
   */
  lemma LeaseIsExclusive(table: Table, grant: Op, ops: seq<Op>, other: Op)
    requires Grants(table, grant)
    requires HolderKeeps(ops, grant.run, grant.me, grant.expiresAt) && NotLater(ops, grant.expiresAt)
    requires other.Acquire? && other.run == grant.run && other.me != grant.me && other.dbNow <= grant.expiresAt
    ensures !Grants(After(Apply(table, grant), ops), other)
  {
    HolderStays(Apply(table, grant), ops, grant.run, grant.me, grant.expiresAt);
  }

  /** The expiry that the holder wrote last: in `ops`, or else the one of its grant. */
  function LatestExpiry(ops: seq<Op>, run: RunId, holder: Instance, granted: real): real {
    if ops == [] then granted
    else
      var last := ops[|ops|-1];
      if last.Acquire? && last.run == run && last.me == holder then last.expiresAt
      else LatestExpiry(ops[..|ops|-1], run, holder, granted)
  }

  /** `op` leaves the run with the holder: its own release is out, and every rival comes by the latest expiry. */
  predicate Harmless(op: Op, run: RunId, holder: Instance, latest: real) {
    && (op.Release? && op.run == run ==> op.me != holder)
    && (op.Acquire? && op.run == run && op.me != holder ==> op.dbNow <= latest)
  }

  ghost predicate AllHarmless(ops: seq<Op>, run: RunId, holder: Instance, granted: real) {
    forall i :: 0 <= i < |ops| ==> Harmless(ops[i], run, holder, LatestExpiry(ops[..i], run, holder, granted))
  }

  ghost predicate HolderOwns(table: Table, ops: seq<Op>, run: RunId, holder: Instance) {
    run in After(table, ops) && After(table, ops)[run].owner == holder
  }

  lemma {:induction false} AfterAppend(table: Table, ops: seq<Op>, op: Op)
    ensures After(table, ops + [op]) == Apply(After(table, ops), op)
    decreases |ops|
  {
    if ops == [] {
      assert (ops + [op])[1..] == [];
    } else {
      assert (ops + [op])[1..] == ops[1..] + [op];
      AfterAppend(Apply(table, ops[0]), ops[1..], op);
    }
  }

  /** As long as nothing harmful happens, the stored expiry is the one the holder wrote last. */
  lemma {:induction false} HolderKeepsRow(table: Table, ops: seq<Op>, run: RunId, holder: Instance, granted: real)
    requires run in table && table[run] == Lease(holder, granted)
    requires AllHarmless(ops, run, holder, granted)
    ensures run in After(table, ops)
    ensures After(table, ops)[run] == Lease(holder, LatestExpiry(ops, run, holder, granted))
  {
    if ops != [] {
      var init, last := ops[..|ops|-1], ops[|ops|-1];
      assert ops == init + [last];
      AfterAppend(table, init, last);
      forall i | 0 <= i < |init| ensures Harmless(init[i], run, holder, LatestExpiry(init[..i], run, holder, granted)) {
        assert init[..i] == ops[..i];
      }
      HolderKeepsRow(table, init, run, holder, granted);
      assert Harmless(last, run, holder, LatestExpiry(ops[..|ops|-1], run, holder, granted));
    }
  }

  /**
   Exactly when the run stays with the holder through any sequence of operations: it never releases the run, and
   every rival's attempt comes no later, by the database clock, than the expiry the holder wrote last. That
   expiry may lie before the granted one: the holder's own attempts can end its protection early.
   */
  lemma HolderOwnsThroughoutIff(table: Table, grant: Op, ops: seq<Op>)
    requires Grants(table, grant)
    ensures (forall n :: 0 <= n <= |ops| ==> HolderOwns(Apply(table, grant), ops[..n], grant.run, grant.me))
        <==> AllHarmless(ops, grant.run, grant.me, grant.expiresAt)
  {
    hide HolderOwns, Harmless;
    var t, run, holder, granted := Apply(table, grant), grant.run, grant.me, grant.expiresAt;
    GrantWritesRow(table, grant);
    if AllHarmless(ops, run, holder, granted) {
      forall n | 0 <= n <= |ops| ensures HolderOwns(t, ops[..n], run, holder) {
        HarmlessPrefix(ops, n, run, holder, granted);
        HolderKeepsRow(t, ops[..n], run, holder, granted);
        OwnedRow(t, ops[..n], run, holder, granted);
      }
    }
    if forall n :: 0 <= n <= |ops| ==> HolderOwns(t, ops[..n], run, holder) {
      OwnedMeansHarmless(t, ops, |ops|, run, holder, granted);
      assert ops[..|ops|] == ops;
    }
  }

  lemma GrantWritesRow(table: Table, grant: Op)
    requires Grants(table, grant)
    ensures grant.run in Apply(table, grant)
    ensures Apply(table, grant)[grant.run] == Lease(grant.me, grant.expiresAt)
  {
  }

  lemma OwnedRow(table: Table, ops: seq<Op>, run: RunId, holder: Instance, expiry: real)
    requires run in After(table, ops) && After(table, ops)[run].owner == holder
    ensures HolderOwns(table, ops, run, holder)
  {
  }

  lemma HarmlessPrefix(ops: seq<Op>, n: nat, run: RunId, holder: Instance, granted: real)
    requires n <= |ops| && AllHarmless(ops, run, holder, granted)
    ensures AllHarmless(ops[..n], run, holder, granted)
  {
    forall i | 0 <= i < n
      ensures Harmless(ops[..n][i], run, holder, LatestExpiry(ops[..n][..i], run, holder, granted))
    {
      assert ops[..n][..i] == ops[..i];
    }
  }

  lemma {:induction false} OwnedMeansHarmless(table: Table, ops: seq<Op>, n: nat, run: RunId, holder: Instance,
                                              granted: real)
    requires run in table && table[run] == Lease(holder, granted) && n <= |ops|
    requires forall m :: 0 <= m <= n ==> HolderOwns(table, ops[..m], run, holder)
    ensures AllHarmless(ops[..n], run, holder, granted)
  {
    if n > 0 {
      OwnedMeansHarmless(table, ops, n - 1, run, holder, granted);
      var init, last := ops[..n-1], ops[n-1];
      assert ops[..n] == init + [last];
      AfterAppend(table, init, last);
      HolderKeepsRow(table, init, run, holder, granted);
      assert HolderOwns(table, ops[..n], run, holder);
      forall i | 0 <= i < n
        ensures Harmless(ops[..n][i], run, holder, LatestExpiry(ops[..n][..i], run, holder, granted))
      {
        assert ops[..n][..i] == if i < n - 1 then init[..i] else init;
      }
    }
  }

  /**
   After any number of harmless operations, the holder's own attempts among them, a rival is granted the run
   exactly when it comes after the expiry the holder wrote last.
   */
  lemma RivalGrantedIff(table: Table, grant: Op, ops: seq<Op>, rival: Op)
    requires Grants(table, grant) && AllHarmless(ops, grant.run, grant.me, grant.expiresAt)
    requires rival.Acquire? && rival.run == grant.run && rival.me != grant.me && rival.expiresAt > rival.dbNow
    ensures Grants(After(Apply(table, grant), ops), rival) <==>
            LatestExpiry(ops, grant.run, grant.me, grant.expiresAt) < rival.dbNow
  {
    hide AllHarmless;
    GrantWritesRow(table, grant);
    HolderKeepsRow(Apply(table, grant), ops, grant.run, grant.me, grant.expiresAt);
  }

  /** A lease that expired strictly before the database clock can be taken over by anyone. */
  lemma ExpiredLeaseIsTaken(table: Table, run: RunId, me: Instance, expiresAt: real, dbNow: real)
    requires expiresAt > dbNow
    ensures Grants(table, Acquire(run, me, expiresAt, dbNow)) <==>
            run !in table || table[run].owner == me || table[run].expiresAt < dbNow
  {
  }
}
