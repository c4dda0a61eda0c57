/**
  The cooperative scheduler of the badge firmware: a fixed table of
  (interval, action, prev) entries, polled with the current time.
  An entry is due when the unsigned 32-bit time elapsed since its `prev`
  reaches its interval.
 */
module Scheduler {
  import opened Bytes

  /** The callbacks of the event table. */
  datatype Action = RenderName | RenderRssi | RenderTeam | RenderColor

  datatype Task = Task(interval: U32, action: Action, prev: U32)

  /** The event table as the firmware starts with it. */
  const Table: seq<Task> := [
    Task(33, RenderName, 0),
    Task(40, RenderRssi, 0),
    Task(40, RenderTeam, 0),
    Task(250, RenderColor, 0)
  ]

  /** Only `prev` changes at run time: intervals and actions are those of Table. */
  predicate TableShape(tasks: seq<Task>)
  {
    && |tasks| == |Table|
    && forall k :: 0 <= k < |tasks| ==>
         tasks[k].interval == Table[k].interval && tasks[k].action == Table[k].action
  }

  /** The elapsed-time test of runEvents, on `ulong` arithmetic. */
  predicate Due(t: Task, now: U32)
  {
    SubU32(now, t.prev) >= t.interval
  }

  /** The table after one poll at `now`. */
  function Poll(tasks: seq<Task>, now: U32): (r: seq<Task>)
    ensures |r| == |tasks|
    ensures forall k :: 0 <= k < |tasks| ==>
              r[k].interval == tasks[k].interval && r[k].action == tasks[k].action
    ensures forall k :: 0 <= k < |tasks| && Due(tasks[k], now) ==> r[k].prev == now
    ensures forall k :: 0 <= k < |tasks| && !Due(tasks[k], now) ==> r[k].prev == tasks[k].prev
  {
    seq(|tasks|, k requires 0 <= k < |tasks| =>
      if Due(tasks[k], now) then tasks[k].(prev := now) else tasks[k])
  }

  /** The positions of the entries one poll fires, in the order it fires them. */
  function DueIndices(tasks: seq<Task>, now: U32): (ix: seq<nat>)
    ensures forall j :: 0 <= j < |ix| ==> ix[j] < |tasks| && Due(tasks[ix[j]], now)
    ensures forall j, j' :: 0 <= j < j' < |ix| ==> ix[j] < ix[j']
    ensures forall k :: 0 <= k < |tasks| && Due(tasks[k], now) ==> k in ix
    decreases |tasks|
  {
    if tasks == [] then []
    else
      var n := |tasks| - 1;
      DueIndices(tasks[..n], now) + (if Due(tasks[n], now) then [n] else [])
  }

  /** The actions one poll invokes, in table order. */
  function Fired(tasks: seq<Task>, now: U32): (acts: seq<Action>)
    decreases |tasks|
  {
    if tasks == [] then []
    else
      var n := |tasks| - 1;
      Fired(tasks[..n], now) + (if Due(tasks[n], now) then [tasks[n].action] else [])
  }

  /** Polling one more entry appends its action exactly when it is due. */
  lemma FiredSnoc(tasks: seq<Task>, now: U32, i: nat)
    requires i < |tasks|
    ensures Fired(tasks[..i + 1], now)
         == Fired(tasks[..i], now) + (if Due(tasks[i], now) then [tasks[i].action] else [])
  {
    assert tasks[..i + 1][..i] == tasks[..i];
  }

  /** The k-th fired action is the action of the k-th due entry. */
  lemma {:induction false} FiredAtDueIndices(tasks: seq<Task>, now: U32)
    ensures |Fired(tasks, now)| == |DueIndices(tasks, now)|
    ensures forall j :: 0 <= j < |Fired(tasks, now)| ==>
              Fired(tasks, now)[j] == tasks[DueIndices(tasks, now)[j]].action
    decreases |tasks|
  {
    if tasks != [] {
      var n := |tasks| - 1;
      FiredAtDueIndices(tasks[..n], now);
      var ix := DueIndices(tasks[..n], now);
      forall j | 0 <= j < |ix| ensures ix[j] < n && tasks[..n][ix[j]] == tasks[ix[j]] { }
    }
  }

  /**
    One poll fires entry k iff its elapsed time reaches its interval, each
    entry at most once, in table order.
   */
  lemma {:induction false} FiredExactlyTheDue(tasks: seq<Task>, now: U32)
    ensures forall a :: a in Fired(tasks, now) <==>
              exists k :: 0 <= k < |tasks| && Due(tasks[k], now) && tasks[k].action == a
    ensures |Fired(tasks, now)| <= |tasks|
  {
    FiredAtDueIndices(tasks, now);
    var ix := DueIndices(tasks, now);
    var acts := Fired(tasks, now);
    forall a | a in acts
      ensures exists k :: 0 <= k < |tasks| && Due(tasks[k], now) && tasks[k].action == a
    {
      var j :| 0 <= j < |acts| && acts[j] == a;
      assert Due(tasks[ix[j]], now) && tasks[ix[j]].action == a;
    }
    forall a | exists k :: 0 <= k < |tasks| && Due(tasks[k], now) && tasks[k].action == a
      ensures a in acts
    {
      var k :| 0 <= k < |tasks| && Due(tasks[k], now) && tasks[k].action == a;
      var j :| 0 <= j < |ix| && ix[j] == k;
      assert acts[j] == a;
    }
    IncreasingBounded(ix, |tasks|);
  }

  /** A strictly increasing sequence of indices below n has at most n elements. */
  lemma {:induction false} IncreasingBounded(ix: seq<nat>, n: nat)
    requires forall j :: 0 <= j < |ix| ==> ix[j] < n
    requires forall j, j' :: 0 <= j < j' < |ix| ==> ix[j] < ix[j']
    ensures |ix| <= n
    decreases n
  {
    if |ix| > 0 {
      var m := |ix| - 1;
      assert forall j :: 0 <= j < m ==> ix[j] < ix[m];
      IncreasingBounded(ix[..m], ix[m]);
    }
  }

  /** For the firmware's four-entry table: which actions fire, and in what order. */
  lemma TableFires(tasks: seq<Task>, now: U32)
    requires TableShape(tasks)
    ensures Fired(tasks, now)
         == (if Due(tasks[0], now) then [RenderName] else [])
          + (if Due(tasks[1], now) then [RenderRssi] else [])
          + (if Due(tasks[2], now) then [RenderTeam] else [])
          + (if Due(tasks[3], now) then [RenderColor] else [])
  {
    assert |tasks| == 4;
    assert tasks[..4] == tasks;
    var f0 := if Due(tasks[0], now) then [RenderName] else [];
    var f1 := if Due(tasks[1], now) then [RenderRssi] else [];
    var f2 := if Due(tasks[2], now) then [RenderTeam] else [];
    var f3 := if Due(tasks[3], now) then [RenderColor] else [];
    assert tasks[..0] == [];
    FiredSnoc(tasks, now, 0);
    assert Fired(tasks[..1], now) == f0;
    FiredSnoc(tasks, now, 1);
    assert Fired(tasks[..2], now) == f0 + f1;
    FiredSnoc(tasks, now, 2);
    assert Fired(tasks[..3], now) == f0 + f1 + f2;
    FiredSnoc(tasks, now, 3);
  }

  /** A table entry fired at `now` is not due again until its interval has elapsed. */
  lemma NoDoubleFire(tasks: seq<Task>, now: U32, k: nat, later: U32)
    requires k < |tasks| && Due(tasks[k], now)
    requires SubU32(later, now) < tasks[k].interval
    ensures !Due(Poll(tasks, now)[k], later)
  {
  }
}
