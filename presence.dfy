/** The presence query each correlation window runs against the VRCX
    `gamelog_join_leave` table, and the SQLite comparison rules its WHERE
    clause is evaluated under. */
module Presence {

  /** A SQLite value as the window query compares it. */
  datatype SqlValue = SqlInt(n: int) | SqlText(s: string)

  /** Text order under the BINARY collation: lexicographic, a prefix first. */
  predicate TextLe(a: string, b: string)
    decreases |a|
  {
    a == [] || (b != [] && (a[0] < b[0] || (a[0] == b[0] && TextLe(a[1..], b[1..]))))
  }

  /** `a <= b` between two values neither of which has an affinity: integers
      by value, every integer below every text, texts by `TextLe`. */
  predicate SqlLe(a: SqlValue, b: SqlValue)
  {
    match (a, b)
    case (SqlInt(x), SqlInt(y)) => x <= y
    case (SqlInt(_), SqlText(_)) => true
    case (SqlText(_), SqlInt(_)) => false
    case (SqlText(x), SqlText(y)) => TextLe(x, y)
  }

  /** `v BETWEEN lo AND hi`, that is `v >= lo AND v <= hi`. */
  predicate Between(v: SqlValue, lo: SqlValue, hi: SqlValue)
  {
    SqlLe(lo, v) && SqlLe(v, hi)
  }

  /** One row of `gamelog_join_leave`: its `type`, its `created_at` text and
      its `display_name`. */
  datatype JoinRow = JoinRow(kind: string, createdAt: string, displayName: string)

  /** As written, `type='OnPlayerJoined' BETWEEN lo AND hi` groups as
      `(type = 'OnPlayerJoined') BETWEEN lo AND hi`: the integer 0 or 1 is
      compared with the two formatted times. */
  predicate WhereAsWritten(r: JoinRow, lo: string, hi: string)
  {
    Between(SqlInt(if r.kind == "OnPlayerJoined" then 1 else 0), SqlText(lo), SqlText(hi))
  }

  /** The evidently intended filter: a join whose time lies in the window. */
  predicate Where(r: JoinRow, lo: string, hi: string)
  {
    r.kind == "OnPlayerJoined" && Between(SqlText(r.createdAt), SqlText(lo), SqlText(hi))
  }

  /** The display names of the rows `keep` selects, in table order. */
  function Names(log: seq<JoinRow>, keep: JoinRow -> bool): seq<string>
    decreases |log|
  {
    if log == [] then []
    else
      var r := log[|log| - 1];
      Names(log[..|log| - 1], keep) + (if keep(r) then [r.displayName] else [])
  }

  function JoinQueryAsWritten(log: seq<JoinRow>, lo: string, hi: string): seq<string>
  {
    Names(log, r => WhereAsWritten(r, lo, hi))
  }

  function JoinQuery(log: seq<JoinRow>, lo: string, hi: string): seq<string>
  {
    Names(log, r => Where(r, lo, hi))
  }

  /** As written, the window query returns no row at all, whatever the table
      holds: 0 and 1 sort below every text bound. */
  lemma {:induction false} JoinQueryAsWrittenEmpty(log: seq<JoinRow>, lo: string, hi: string)
    ensures JoinQueryAsWritten(log, lo, hi) == []
  {
    if log != [] {
      JoinQueryAsWrittenEmpty(log[..|log| - 1], lo, hi);
      assert !WhereAsWritten(log[|log| - 1], lo, hi);
    }
  }

  /** Any join inside the window is one the query as written misses. */
  lemma JoinQueryAsWrittenMissesJoin(r: JoinRow, lo: string, hi: string)
    requires Where(r, lo, hi)
    ensures JoinQuery([r], lo, hi) == [r.displayName]
    ensures JoinQueryAsWritten([r], lo, hi) == []
  {
    var keep := (x: JoinRow) => Where(x, lo, hi);
    assert [r][..0] == [];
    assert keep(r);
    assert JoinQuery([r], lo, hi) == Names([r], keep) == Names([], keep) + [r.displayName];
    JoinQueryAsWrittenEmpty([r], lo, hi);
  }

  /** The intended query returns a name exactly when some join of that
      name lies in the window. */
  lemma {:induction false} JoinQueryMatches(log: seq<JoinRow>, lo: string, hi: string, name: string)
    ensures name in JoinQuery(log, lo, hi) <==>
      exists i :: 0 <= i < |log| && log[i].displayName == name && Where(log[i], lo, hi)
  {
    if log != [] {
      var init := log[..|log| - 1];
      JoinQueryMatches(init, lo, hi, name);
      assert forall i :: 0 <= i < |init| ==> init[i] == log[i];
    }
  }

  /** The positions of the rows in the window. */
  function InWindow(log: seq<JoinRow>, lo: string, hi: string): set<nat>
  {
    set i: nat | i < |log| && Where(log[i], lo, hi)
  }

  lemma InWindowSnoc(log: seq<JoinRow>, lo: string, hi: string)
    requires log != []
    ensures InWindow(log, lo, hi) ==
      InWindow(log[..|log| - 1], lo, hi) + (if Where(log[|log| - 1], lo, hi) then {|log| - 1} else {})
  {
    var init := log[..|log| - 1];
    assert forall i :: 0 <= i < |init| ==> init[i] == log[i];
  }

  /** It returns one name per join in the window, duplicates included. */
  lemma {:induction false} JoinQueryCount(log: seq<JoinRow>, lo: string, hi: string)
    ensures |JoinQuery(log, lo, hi)| == |InWindow(log, lo, hi)|
  {
    if log != [] {
      var init := log[..|log| - 1];
      JoinQueryCount(init, lo, hi);
      InWindowSnoc(log, lo, hi);
      assert |init| !in InWindow(init, lo, hi);
    }
  }
}
