/** The database side of the monitor: the log table, the single-row INSERT
    statement and InsertLogEntry, which writes a batch row by row and stops
    at the first failure. Whether a statement succeeds is outside the
    program's control; it is modelled by an oracle that gives the outcome
    of the n-th statement executed. */
module Sink {
  import opened Parser
  import opened Batch

  class Database {
    /** The rows of the log table, in insertion order. */
    var rows: seq<LogEntry>
    /** How many INSERT statements have been executed. */
    var calls: nat
    /** Whether the n-th INSERT statement executed succeeds. */
    const execOk: nat -> bool
    /** Every batch handed to InsertLogEntry, in order: what the monitor
        flushes. */
    ghost var batches: seq<seq<LogEntry>>

    constructor (execOk: nat -> bool)
      ensures rows == [] && calls == 0 && batches == []
      ensures this.execOk == execOk
    {
      this.execOk := execOk;
      rows, calls := [], 0;
      batches := [];
    }

    /** One `INSERT INTO oula_logs_record ... VALUES (?, ...)` for `entry`:
        the row is added exactly when the statement succeeds. */
    method Exec(entry: LogEntry) returns (ok: bool)
      modifies this`rows, this`calls
      ensures ok == execOk(old(calls))
      ensures calls == old(calls) + 1
      ensures rows == if ok then old(rows) + [entry] else old(rows)
    {
      ok := execOk(calls);
      if ok {
        rows := rows + [entry];
      }
      calls := calls + 1;
    }
  }

  /** How many of the `n` statements starting with statement `from`
      succeed before the first failure. */
  function SuccessRun(execOk: nat -> bool, from: nat, n: nat): (k: nat)
    ensures k <= n
    ensures forall c :: from <= c < from + k ==> execOk(c)
    ensures k < n ==> !execOk(from + k)
    decreases n
  {
    if n == 0 || !execOk(from) then 0 else 1 + SuccessRun(execOk, from + 1, n - 1)
  }

  /** The table rows and the number of statements executed so far. */
  datatype Delivery = Delivery(rows: seq<LogEntry>, calls: nat)

  /** What InsertLogEntry does to the table and the statement count: the
      leading entries whose statements succeed are appended, and the
      statement that fails, if one does, is counted too. */
  function Insert(execOk: nat -> bool, d: Delivery, entries: seq<LogEntry>): Delivery {
    var k := SuccessRun(execOk, d.calls, |entries|);
    Delivery(d.rows + entries[..k], d.calls + (if k == |entries| then k else k + 1))
  }

  /** InsertLogEntry: insert the entries in order, one statement each; on
      the first failure return the error at once. The rows before the
      failing one are written and none after it. */
  method InsertLogEntry(db: Database, entries: seq<LogEntry>) returns (ok: bool)
    modifies db
    ensures db.batches == old(db.batches) + [entries]
    ensures ok <==> SuccessRun(db.execOk, old(db.calls), |entries|) == |entries|
    ensures Delivery(db.rows, db.calls) == Insert(db.execOk, Delivery(old(db.rows), old(db.calls)), entries)
  {
    db.batches := db.batches + [entries];
    var i := 0;
    while i < |entries|
      invariant 0 <= i <= |entries|
      invariant db.batches == old(db.batches) + [entries]
      invariant db.calls == old(db.calls) + i
      invariant forall c :: old(db.calls) <= c < old(db.calls) + i ==> db.execOk(c)
      invariant db.rows == old(db.rows) + entries[..i]
    {
      var success := db.Exec(entries[i]);
      if !success {
        SuccessRunStops(db.execOk, old(db.calls), |entries|, i);
        return false;
      }
      assert entries[..i + 1] == entries[..i] + [entries[i]];
      i := i + 1;
    }
    SuccessRunStops(db.execOk, old(db.calls), |entries|, i);
    assert entries[..i] == entries;
    return true;
  }

  /** The run of successes ends at the first statement that fails. */
  lemma {:induction false} SuccessRunStops(execOk: nat -> bool, from: nat, n: nat, i: nat)
    requires i <= n
    requires forall c :: from <= c < from + i ==> execOk(c)
    requires i < n ==> !execOk(from + i)
    ensures SuccessRun(execOk, from, n) == i
    decreases i
  {
    if i > 0 {
      SuccessRunStops(execOk, from + 1, n - 1, i - 1);
    }
  }

  /** What InsertLogEntry writes for `batches`, one call after the other,
      starting from `d`. */
  function Deliver(execOk: nat -> bool, d: Delivery, batches: seq<seq<LogEntry>>): Delivery
    decreases |batches|
  {
    if batches == [] then d
    else Insert(execOk, Deliver(execOk, d, batches[..|batches| - 1]), batches[|batches| - 1])
  }

  /** One more batch: InsertLogEntry for it, after the others. */
  lemma DeliverSnoc(execOk: nat -> bool, d: Delivery, batches: seq<seq<LogEntry>>, b: seq<LogEntry>)
    ensures Deliver(execOk, d, batches + [b]) == Insert(execOk, Deliver(execOk, d, batches), b)
  {
    assert (batches + [b])[..|batches|] == batches;
  }

  /** Every row written comes from a statement, and every statement from
      an entry of some batch: the rows already there stay, and the rows
      gained are entries of the batches, none written more often than it
      was handed over. */
  lemma {:induction false} DeliverBounded(execOk: nat -> bool, d: Delivery, batches: seq<seq<LogEntry>>)
    ensures var e := Deliver(execOk, d, batches);
            && d.rows <= e.rows
            && d.calls + |e.rows| - |d.rows| <= e.calls <= d.calls + |Flatten(batches)|
            && multiset(e.rows[|d.rows|..]) <= multiset(Flatten(batches))
    decreases |batches|
  {
    if batches != [] {
      var init := batches[..|batches| - 1];
      var b := batches[|batches| - 1];
      var e0 := Deliver(execOk, d, init);
      DeliverBounded(execOk, d, init);
      assert batches == init + [b];
      FlattenConcat(init, [b]);
      assert Flatten([b]) == b;
      var k := SuccessRun(execOk, e0.calls, |b|);
      var e := Deliver(execOk, d, batches);
      assert e.rows == e0.rows + b[..k];
      assert e.rows[|d.rows|..] == e0.rows[|d.rows|..] + b[..k];
      assert b == b[..k] + b[k..];
      assert multiset(b[..k]) <= multiset(b);
    }
  }

  /** With a database on which every statement succeeds, the table gains
      every flushed entry, once and in order. */
  lemma {:induction false} DeliverReliable(execOk: nat -> bool, d: Delivery, batches: seq<seq<LogEntry>>)
    requires forall c :: execOk(c)
    ensures Deliver(execOk, d, batches).rows == d.rows + Flatten(batches)
    decreases |batches|
  {
    if batches != [] {
      var init := batches[..|batches| - 1];
      var b := batches[|batches| - 1];
      DeliverReliable(execOk, d, init);
      assert batches == init + [b];
      FlattenConcat(init, [b]);
      assert Flatten([b]) == b;
      assert b[..|b|] == b;
    }
  }
}
