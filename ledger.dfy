/** The suspicion ledger (`ripper.json`): display name to hit count.
    One correlation window walks the rows its presence query returned and
    updates the ledger row by row. */
module Ledger {

  type Ledger = map<string, int>

  /** One row's update (`contains_key`, then `insert`). */
  function Bump(ledger: Ledger, name: string): Ledger
  {
    if name in ledger then ledger[name := ledger[name] + 1] else ledger[name := 0]
  }

  /** A name already present goes up by one, a name seen for the first time
      is entered with 0, every other key keeps its value: no count decreases. */
  lemma BumpStep(ledger: Ledger, name: string)
    ensures Bump(ledger, name).Keys == ledger.Keys + {name}
    ensures name in ledger ==> Bump(ledger, name)[name] == ledger[name] + 1
    ensures name !in ledger ==> Bump(ledger, name)[name] == 0
    ensures forall k :: k in ledger && k != name ==> Bump(ledger, name)[k] == ledger[k]
    ensures forall k :: k in ledger ==> ledger[k] <= Bump(ledger, name)[k]
  {
  }

  /** The ledger after applying every row of `rows`, first to last. */
  function Tally(ledger: Ledger, rows: seq<string>): Ledger
    decreases |rows|
  {
    if rows == [] then ledger
    else Bump(Tally(ledger, rows[..|rows| - 1]), rows[|rows| - 1])
  }

  /** Number of rows carrying `name`. */
  function Occurrences(rows: seq<string>, name: string): nat
    decreases |rows|
  {
    if rows == [] then 0
    else Occurrences(rows[..|rows| - 1], name) + (if rows[|rows| - 1] == name then 1 else 0)
  }

  /** The loop over one window's rows: the ledger map is updated in place. */
  method UpdateLedger(ledger: Ledger, rows: seq<string>) returns (updated: Ledger)
    ensures updated == Tally(ledger, rows)
  {
    updated := ledger;
    for i := 0 to |rows|
      invariant updated == Tally(ledger, rows[..i])
    {
      assert rows[..i + 1][..i] == rows[..i];
      var name := rows[i];
      if name in updated {
        updated := updated[name := updated[name] + 1];
      } else {
        updated := updated[name := 0];
      }
    }
    assert rows[..|rows|] == rows;
  }

  /** The keys afterwards are the old keys and the names of the rows. */
  lemma {:induction false} TallyKeys(ledger: Ledger, rows: seq<string>)
    ensures Tally(ledger, rows).Keys == ledger.Keys + set x | x in rows
  {
    if rows != [] {
      var init := rows[..|rows| - 1];
      TallyKeys(ledger, init);
      assert rows == init + [rows[|rows| - 1]];
      assert (set x | x in rows) == (set x | x in init) + {rows[|rows| - 1]};
    }
  }

  /** A name present beforehand with count c that appears k times ends at c + k. */
  lemma {:induction false} TallyPresent(ledger: Ledger, rows: seq<string>, name: string)
    requires name in ledger
    ensures name in Tally(ledger, rows)
    ensures Tally(ledger, rows)[name] == ledger[name] + Occurrences(rows, name)
  {
    if rows != [] {
      TallyPresent(ledger, rows[..|rows| - 1], name);
    }
  }

  /** A name absent beforehand that appears k >= 1 times ends at k - 1;
      one that does not appear stays absent. */
  lemma {:induction false} TallyAbsent(ledger: Ledger, rows: seq<string>, name: string)
    requires name !in ledger
    ensures Occurrences(rows, name) == 0 ==> name !in Tally(ledger, rows)
    ensures Occurrences(rows, name) >= 1 ==>
      name in Tally(ledger, rows) && Tally(ledger, rows)[name] == Occurrences(rows, name) - 1
  {
    if rows != [] {
      TallyAbsent(ledger, rows[..|rows| - 1], name);
    }
  }

  /** No count ever decreases. */
  lemma {:induction false} TallyMonotone(ledger: Ledger, rows: seq<string>)
    ensures forall k :: k in ledger ==> k in Tally(ledger, rows) && ledger[k] <= Tally(ledger, rows)[k]
  {
    if rows != [] {
      TallyMonotone(ledger, rows[..|rows| - 1]);
    }
  }

  /** Counting is per row, not per distinct name: two rows of the same known
      name within one window add two. */
  lemma PerRowCounting(ledger: Ledger, name: string)
    requires name in ledger
    ensures Tally(ledger, [name, name])[name] == ledger[name] + 2
  {
    TallyPresent(ledger, [name, name], name);
    assert [name, name][..1] == [name];
    assert [name][..0] == [];
    assert Occurrences([name], name) == 1;
  }
}
