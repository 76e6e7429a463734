/** The identity backfill (`search_old_logs`): every join row of the presence
    log whose `user_id` is empty triggers a user search by display name,
    unless that name is already in the `checked` list of this pass. A name
    enters `checked` only after a successful response. */
module Backfill {

  /** One `OnPlayerJoined` row of the presence log. */
  datatype Row = Row(displayName: string, userId: string)

  /** The reply to one user-search request. */
  datatype Reply =
    | SendError                               // `send()?` fails: the pass returns Err
    | Refused                                 // a status that is not success
    | Unparsable                              // the body is not JSON: `?` returns Err
    | Profile(displayName: string, storeOk: bool)
      // storeOk: whether the UPDATE of the presence log succeeds when it is attempted

  /** What a lookup leads to. */
  datatype Lookup = Unresolved | Resolved(update: bool) | Aborted

  function Answer(row: Row, reply: Reply): Lookup
  {
    match reply
    case SendError => Aborted
    case Refused => Unresolved
    case Unparsable => Aborted
    case Profile(name, storeOk) =>
      if name != row.displayName then Resolved(false)
      else if storeOk then Resolved(true)
      else Aborted
  }

  /** The pass's state: the `checked` list, the progress counter, the rows
      (by index) that sent a request, and the names whose UPDATE was run. */
  datatype State = State(checked: seq<string>, ticks: nat, lookups: seq<nat>, updates: seq<string>)

  datatype Run = Running(state: State) | Halted(state: State, at: nat)

  const Initial := State([], 0, [], [])

  /** Row `i` of the pass. */
  function Step(s: State, i: nat, row: Row, reply: Reply): Run
  {
    if row.userId != "" then Running(s)
    else if row.displayName in s.checked then Running(s.(ticks := s.ticks + 1))
    else
      var asked := s.(lookups := s.lookups + [i]);
      match Answer(row, reply)
      case Aborted => Halted(asked, i)
      case Unresolved => Running(asked.(ticks := s.ticks + 1))
      case Resolved(update) =>
        Running(asked.(checked := s.checked + [row.displayName], ticks := s.ticks + 1,
                       updates := if update then s.updates + [row.displayName] else s.updates))
  }

  /** The whole pass: `replies[i]` is what the search for row `i` would
      return; it is used only when row `i` sends a request. */
  function RunBackfill(rows: seq<Row>, replies: seq<Reply>): Run
    requires |rows| == |replies|
    decreases |rows|
  {
    if rows == [] then Running(Initial)
    else
      var n := |rows| - 1;
      match RunBackfill(rows[..n], replies[..n])
      case Halted(s, at) => Halted(s, at)
      case Running(s) => Step(s, n, rows[n], replies[n])
  }

  /** Number of rows whose `user_id` is empty, duplicates included. */
  function CountEmptyIds(rows: seq<Row>): nat
    decreases |rows|
  {
    if rows == [] then 0
    else CountEmptyIds(rows[..|rows| - 1]) + (if rows[|rows| - 1].userId == "" then 1 else 0)
  }

  /** The names the pass resolves: those of empty-id rows whose reply is a
      successful response that does not abort the pass. */
  ghost function ResolvedNames(rows: seq<Row>, replies: seq<Reply>): set<string>
    requires |rows| == |replies|
  {
    set i | 0 <= i < |rows| && rows[i].userId == "" && Answer(rows[i], replies[i]).Resolved? :: rows[i].displayName
  }

  /** Row `j` sends a request: its id is empty and no earlier row has
      resolved its name. */
  ghost predicate LookedUp(rows: seq<Row>, replies: seq<Reply>, j: nat)
    requires |rows| == |replies| && j < |rows|
  {
    rows[j].userId == "" && rows[j].displayName !in ResolvedNames(rows[..j], replies[..j])
  }

  predicate NoDuplicates(names: seq<string>)
  {
    forall a, b :: 0 <= a < b < |names| ==> names[a] != names[b]
  }

  /** What a pass that has not aborted knows after `rows`. */
  ghost predicate Consistent(rows: seq<Row>, replies: seq<Reply>, s: State)
    requires |rows| == |replies|
  {
    && (forall x :: x in s.checked <==> x in ResolvedNames(rows, replies))
    && NoDuplicates(s.checked)
    && s.ticks == CountEmptyIds(rows)
    && (forall j :: j in s.lookups ==> j < |rows|)
    && (forall j :: 0 <= j < |rows| ==> (j in s.lookups <==> LookedUp(rows, replies, j)))
    && (forall u :: u in s.updates ==> u in s.checked)
  }

  /** The loop that counts `ready_count`: rows whose `user_id` is set. */
  method CountReady(rows: seq<Row>) returns (ready: nat)
    ensures ready + CountEmptyIds(rows) == |rows|
  {
    ready := 0;
    for i := 0 to |rows|
      invariant ready + CountEmptyIds(rows[..i]) == i
    {
      assert rows[..i + 1][..i] == rows[..i];
      if rows[i].userId != "" {
        ready := ready + 1;
      }
    }
    assert rows[..|rows|] == rows;
  }

  /** The lookup loop of the pass. */
  method SearchOldLogs(rows: seq<Row>, replies: seq<Reply>) returns (run: Run)
    requires |rows| == |replies|
    ensures run == RunBackfill(rows, replies)
  {
    var checked: seq<string> := [];
    var ticks: nat := 0;
    var lookups: seq<nat> := [];
    var updates: seq<string> := [];
    for i := 0 to |rows|
      invariant RunBackfill(rows[..i], replies[..i]) == Running(State(checked, ticks, lookups, updates))
    {
      assert rows[..i + 1][..i] == rows[..i];
      assert replies[..i + 1][..i] == replies[..i];
      var row := rows[i];
      if row.userId == "" {
        if row.displayName !in checked {
          lookups := lookups + [i];
          var answer := Answer(row, replies[i]);
          if answer.Aborted? {
            run := Halted(State(checked, ticks, lookups, updates), i);
            RunHaltedStays(rows, replies, i + 1);
            return;
          }
          if answer.Resolved? {
            if answer.update {
              updates := updates + [row.displayName];
            }
            checked := checked + [row.displayName];
          }
        }
        ticks := ticks + 1;
      }
    }
    assert rows[..|rows|] == rows && replies[..|replies|] == replies;
    run := Running(State(checked, ticks, lookups, updates));
  }

  /** Once a prefix of the rows has aborted the pass, the rest is never looked at. */
  lemma {:induction false} RunHaltedStays(rows: seq<Row>, replies: seq<Reply>, n: nat)
    requires |rows| == |replies| && n <= |rows|
    requires RunBackfill(rows[..n], replies[..n]).Halted?
    ensures RunBackfill(rows, replies) == RunBackfill(rows[..n], replies[..n])
    decreases |rows| - n
  {
    if n < |rows| {
      var p, q := rows[..n + 1], replies[..n + 1];
      assert p[..n] == rows[..n] && q[..n] == replies[..n];
      RunHaltedStays(rows, replies, n + 1);
    } else {
      assert rows[..n] == rows && replies[..n] == replies;
    }
  }

  lemma ResolvedSnoc(rows: seq<Row>, replies: seq<Reply>)
    requires |rows| == |replies| && rows != []
    ensures var n := |rows| - 1;
      ResolvedNames(rows, replies) ==
        ResolvedNames(rows[..n], replies[..n]) +
        (if rows[n].userId == "" && Answer(rows[n], replies[n]).Resolved? then {rows[n].displayName} else {})
  {
    var n := |rows| - 1;
    var p, q := rows[..n], replies[..n];
    forall x | x in ResolvedNames(rows, replies)
      ensures x in ResolvedNames(p, q) || (rows[n].userId == "" && Answer(rows[n], replies[n]).Resolved? && x == rows[n].displayName)
    {
      var i :| 0 <= i < |rows| && rows[i].userId == "" && Answer(rows[i], replies[i]).Resolved? && rows[i].displayName == x;
      if i < n {
        assert p[i] == rows[i] && q[i] == replies[i];
      }
    }
    forall x | x in ResolvedNames(p, q)
      ensures x in ResolvedNames(rows, replies)
    {
      var i :| 0 <= i < |p| && p[i].userId == "" && Answer(p[i], q[i]).Resolved? && p[i].displayName == x;
      assert rows[i] == p[i] && replies[i] == q[i];
    }
  }

  lemma LookedUpPrefix(rows: seq<Row>, replies: seq<Reply>, m: nat, j: nat)
    requires |rows| == |replies| && j < m <= |rows|
    ensures LookedUp(rows[..m], replies[..m], j) == LookedUp(rows, replies, j)
  {
    assert rows[..m][..j] == rows[..j];
    assert replies[..m][..j] == replies[..j];
  }

  /** Every pass that has not aborted is Consistent with the rows it read. */
  lemma {:induction false} RunningConsistent(rows: seq<Row>, replies: seq<Reply>)
    requires |rows| == |replies|
    requires RunBackfill(rows, replies).Running?
    ensures Consistent(rows, replies, RunBackfill(rows, replies).state)
  {
    if rows != [] {
      var n := |rows| - 1;
      var p, q := rows[..n], replies[..n];
      RunningConsistent(p, q);
      var s := RunBackfill(p, q).state;
      var t := RunBackfill(rows, replies).state;
      assert t == Step(s, n, rows[n], replies[n]).state;
      ResolvedSnoc(rows, replies);
      assert rows[n].userId == "" && rows[n].displayName !in s.checked ==> t.checked == s.checked + (if Answer(rows[n], replies[n]).Resolved? then [rows[n].displayName] else []);
      forall j | 0 <= j < |rows|
        ensures j in t.lookups <==> LookedUp(rows, replies, j)
      {
        if j < n {
          LookedUpPrefix(rows, replies, n, j);
        } else {
          assert rows[..n] == p && replies[..n] == q;
        }
      }
    }
  }

  /** An aborted pass stopped at a row that sent a request whose reply
      aborts, with the state it had before that row plus the request. */
  lemma {:induction false} RunHalted(rows: seq<Row>, replies: seq<Reply>)
    requires |rows| == |replies|
    requires RunBackfill(rows, replies).Halted?
    ensures var h := RunBackfill(rows, replies);
      && h.at < |rows|
      && rows[h.at].userId == ""
      && Answer(rows[h.at], replies[h.at]).Aborted?
      && RunBackfill(rows[..h.at], replies[..h.at]).Running?
      && var s := RunBackfill(rows[..h.at], replies[..h.at]).state;
         rows[h.at].displayName !in s.checked && h.state == s.(lookups := s.lookups + [h.at])
  {
    var n := |rows| - 1;
    var p, q := rows[..n], replies[..n];
    if RunBackfill(p, q).Halted? {
      RunHalted(p, q);
      var at := RunBackfill(p, q).at;
      assert p[..at] == rows[..at] && q[..at] == replies[..at];
    } else {
      assert rows[..n] == p && replies[..n] == q;
    }
  }

  /** The progress counter ends at the number of rows with an empty
      `user_id`, duplicates included; together with `ready_count` it covers
      every row. An aborted pass has counted the rows before the abort. */
  lemma ProgressCount(rows: seq<Row>, replies: seq<Reply>, ready: nat)
    requires |rows| == |replies|
    requires ready + CountEmptyIds(rows) == |rows|
    ensures RunBackfill(rows, replies).Running? ==>
      RunBackfill(rows, replies).state.ticks == CountEmptyIds(rows) &&
      RunBackfill(rows, replies).state.ticks + ready == |rows|
    ensures RunBackfill(rows, replies).Halted? ==>
      RunBackfill(rows, replies).at < |rows| &&
      RunBackfill(rows, replies).state.ticks == CountEmptyIds(rows[..RunBackfill(rows, replies).at])
  {
    if RunBackfill(rows, replies).Running? {
      RunningConsistent(rows, replies);
    } else {
      RunHalted(rows, replies);
      var at := RunBackfill(rows, replies).at;
      RunningConsistent(rows[..at], replies[..at]);
    }
  }

  /** A row whose `user_id` is set never sends a request. */
  lemma NoLookupForKnownId(rows: seq<Row>, replies: seq<Reply>, j: nat)
    requires |rows| == |replies| && j < |rows| && rows[j].userId != ""
    requires RunBackfill(rows, replies).Running?
    ensures j !in RunBackfill(rows, replies).state.lookups
  {
    RunningConsistent(rows, replies);
  }

  /** A name enters `checked` only through a successful response to a row with
      an empty id, and every such name is in `checked` at the end. */
  lemma CheckedAreResolved(rows: seq<Row>, replies: seq<Reply>, x: string)
    requires |rows| == |replies|
    requires RunBackfill(rows, replies).Running?
    ensures x in RunBackfill(rows, replies).state.checked <==>
      exists i :: 0 <= i < |rows| && rows[i].userId == "" && rows[i].displayName == x && Answer(rows[i], replies[i]).Resolved?
    ensures NoDuplicates(RunBackfill(rows, replies).state.checked)
  {
    RunningConsistent(rows, replies);
  }

  /** After a successful response for a name, later rows of that name send
      no request. */
  lemma NoRepeatAfterSuccess(rows: seq<Row>, replies: seq<Reply>, i: nat, j: nat)
    requires |rows| == |replies| && i < j < |rows|
    requires rows[i].userId == "" && rows[i].displayName == rows[j].displayName
    requires Answer(rows[i], replies[i]).Resolved?
    requires RunBackfill(rows, replies).Running?
    ensures j !in RunBackfill(rows, replies).state.lookups
  {
    RunningConsistent(rows, replies);
    assert rows[..j][i] == rows[i] && replies[..j][i] == replies[i];
    assert rows[j].displayName in ResolvedNames(rows[..j], replies[..j]);
  }

  /** An UPDATE of the presence log is run for a name exactly when some row
      of that name sent a request and got a successful response naming that
      same display name. */
  lemma {:induction false} UpdatesExact(rows: seq<Row>, replies: seq<Reply>, x: string)
    requires |rows| == |replies|
    requires RunBackfill(rows, replies).Running?
    ensures x in RunBackfill(rows, replies).state.updates <==>
      exists i :: 0 <= i < |rows| && rows[i].displayName == x && LookedUp(rows, replies, i) &&
        Answer(rows[i], replies[i]) == Resolved(true)
  {
    if rows != [] {
      var n := |rows| - 1;
      var p, q := rows[..n], replies[..n];
      assert RunBackfill(p, q).Running?;
      UpdatesExact(p, q, x);
      RunningConsistent(p, q);
      RunningConsistent(rows, replies);
      var s := RunBackfill(p, q).state;
      var t := RunBackfill(rows, replies).state;
      assert t == Step(s, n, rows[n], replies[n]).state;
      assert rows[..n] == p && replies[..n] == q;
      forall i | 0 <= i < n
        ensures p[i] == rows[i] && q[i] == replies[i] && LookedUp(p, q, i) == LookedUp(rows, replies, i)
      {
        LookedUpPrefix(rows, replies, n, i);
      }
      assert n in t.lookups <==> LookedUp(rows, replies, n);
    }
  }

  /** A name whose request was refused is looked up again at its next row
      with an empty id. */
  lemma RetryAfterRefusal(rows: seq<Row>, replies: seq<Reply>, i: nat, j: nat)
    requires |rows| == |replies| && i < j < |rows|
    requires RunBackfill(rows, replies).Running?
    requires i in RunBackfill(rows, replies).state.lookups && replies[i] == Refused
    requires rows[j].userId == "" && rows[j].displayName == rows[i].displayName
    requires forall k :: i < k < j && rows[k].userId == "" ==> rows[k].displayName != rows[i].displayName
    ensures j in RunBackfill(rows, replies).state.lookups
  {
    RunningConsistent(rows, replies);
    assert LookedUp(rows, replies, i);
  }
}
