/** Time-window correlation in `search_store`: for each avatar detail, a
    window of five minutes either side of `dateAdded`, and a second one around
    `lastUpdated` when that field is not null. The presence rows each window's
    query returns are inputs here. */
module Correlation {
  import opened Ledger

  datatype Option<T> = None | Some(value: T)

  /** How a step of the program ends: normally, with an `Err` returned by `?`,
      or with a panic from `unwrap`/`expect`. */
  datatype Exit = Finished | Failed | Panicked

  /** A JSON value, as far as the scan looks at it. */
  datatype Json = JNull | JInt(n: int) | JText(s: string) | JOther

  type JsonObject = map<string, Json>

  /** Indexing a JSON object value by key: a missing key reads as null. */
  function Field(obj: JsonObject, key: string): Json
  {
    if key in obj then obj[key] else JNull
  }

  /** `as_i64()`: the integer, when the value is one. */
  function AsInt(v: Json): Option<int>
  {
    if v.JInt? then Some(v.n) else None
  }

  /** Half the width of a correlation window: five minutes in milliseconds. */
  const HalfWidth: int := 5 * 60 * 1000

  /** A closed interval of millisecond timestamps. */
  datatype Window = Window(lo: int, hi: int)

  predicate Covers(w: Window, x: int)
  {
    w.lo <= x <= w.hi
  }

  /** The window around timestamp `t`. */
  function CenteredWindow(t: int): (w: Window)
    ensures Covers(w, t)
    ensures w.hi - w.lo == 600000
    ensures w.hi - t == t - w.lo
  {
    Window(t - HalfWidth, t + HalfWidth)
  }

  /** What the second window is centred on: nothing (the field is null),
      a timestamp, or a panic (`unwrap` of a value that is not an integer). */
  datatype Probe = Skip | Centered(t: int) | Panics

  /** The first window's centre: the detail response's `dateAdded`. */
  function DateAdded(detail: JsonObject): (t: Option<int>)
    ensures t.Some? <==> "dateAdded" in detail && detail["dateAdded"].JInt?
    ensures t.Some? ==> t.value == detail["dateAdded"].n
  {
    AsInt(Field(detail, "dateAdded"))
  }

  /** The second window's centre: the detail response's `lastUpdated`,
      skipped when that is null or missing. */
  function SecondProbe(detail: JsonObject): (p: Probe)
    ensures p == Skip <==> Field(detail, "lastUpdated") == JNull
    ensures p.Centered? <==> "lastUpdated" in detail && detail["lastUpdated"].JInt?
    ensures p.Centered? ==> p.t == detail["lastUpdated"].n
  {
    var v := Field(detail, "lastUpdated");
    if v == JNull then Skip
    else match AsInt(v)
      case Some(t) => Centered(t)
      case None => Panics
  }

  /** As written, the first centre is read from the search response's body,
      which is parsed a second time, and not from the detail response. */
  function DateAddedAsWritten(searchBody: JsonObject, detail: JsonObject): Option<int>
  {
    AsInt(Field(searchBody, "dateAdded"))
  }

  /** As written, `json` at the second window is the ledger map that shadows
      the detail JSON, and indexing a map by a missing key panics. */
  function SecondProbeAsWritten(ledger: Ledger, detail: JsonObject): Probe
  {
    if "lastUpdated" in ledger then Centered(ledger["lastUpdated"]) else Panics
  }

  /** A search body without `dateAdded` makes the first window unwrap a
      missing value, whatever the detail response says. */
  lemma DateAddedIgnoresDetail(searchBody: JsonObject, detail: JsonObject)
    requires "dateAdded" !in searchBody
    requires "dateAdded" in detail && detail["dateAdded"].JInt?
    ensures DateAddedAsWritten(searchBody, detail) == None
    ensures DateAdded(detail) == Some(detail["dateAdded"].n)
  {
  }

  /** Unless a user is literally called "lastUpdated", the ledger has no such
      key after the first window and the second window panics, whatever the
      detail response's `lastUpdated` is. */
  lemma {:induction false} SecondProbeAsWrittenPanics(file: Ledger, joined: seq<string>, detail: JsonObject)
    requires "lastUpdated" !in file && "lastUpdated" !in joined
    ensures SecondProbeAsWritten(Tally(file, joined), detail) == Panics
  {
    TallyKeys(file, joined);
  }

  /** When a user called "lastUpdated" is in the ledger, its hit count is
      taken for a timestamp. */
  lemma SecondProbeAsWrittenUsesCount(count: int)
    ensures SecondProbeAsWritten(map["lastUpdated" := count], map[]) == Centered(count)
    ensures SecondProbe(map[]) == Skip
  {
  }

  /** The reply to one avatar detail request. */
  datatype DetailReply =
    | Unreachable                          // `send()?` fails
    | Refused                              // a status that is not success: the avatar is skipped
    | Detail(body: JsonObject, joined: seq<string>, rejoined: seq<string>)
      // `joined` and `rejoined` are the display names returned by the presence
      // queries of the first and second window

  /** One presence query: its window and the display names of its rows. */
  datatype Query = Query(window: Window, rows: seq<string>)

  /** The queries made, in order, and how the scan ended. */
  datatype Scan = Scan(queries: seq<Query>, stop: Exit)

  /** The queries one detail reply leads to. */
  function DetailScan(d: DetailReply): Scan
  {
    match d
    case Unreachable => Scan([], Failed)
    case Refused => Scan([], Finished)
    case Detail(body, joined, rejoined) =>
      match DateAdded(body)
      case None => Scan([], Panicked)
      case Some(t) =>
        var first := Query(CenteredWindow(t), joined);
        match SecondProbe(body)
        case Skip => Scan([first], Finished)
        case Centered(u) => Scan([first, Query(CenteredWindow(u), rejoined)], Finished)
        case Panics => Scan([first], Panicked)
  }

  /** The loop over the avatar idents: each detail reply in turn, stopping at
      the first one that ends the scan. */
  function Schedule(details: seq<DetailReply>): Scan
    decreases |details|
  {
    if details == [] then Scan([], Finished)
    else
      var prior := Schedule(details[..|details| - 1]);
      if prior.stop != Finished then prior
      else
        var here := DetailScan(details[|details| - 1]);
        Scan(prior.queries + here.queries, here.stop)
  }

  lemma ScheduleSnoc(details: seq<DetailReply>, d: DetailReply)
    ensures Schedule(details + [d]) ==
      var prior := Schedule(details);
      if prior.stop != Finished then prior
      else Scan(prior.queries + DetailScan(d).queries, DetailScan(d).stop)
  {
    assert (details + [d])[..|details|] == details;
  }

  /** Once a prefix of the replies has ended the scan, the rest is never looked at. */
  lemma {:induction false} ScheduleStops(details: seq<DetailReply>, n: nat)
    requires n <= |details|
    requires Schedule(details[..n]).stop != Finished
    ensures Schedule(details) == Schedule(details[..n])
    decreases |details| - n
  {
    if n < |details| {
      ScheduleSnoc(details[..n], details[n]);
      assert details[..n + 1] == details[..n] + [details[n]];
      ScheduleStops(details, n + 1);
    } else {
      assert details[..n] == details;
    }
  }

  /** Number of avatars whose detail request succeeded. */
  function Fetched(details: seq<DetailReply>): nat
    decreases |details|
  {
    if details == [] then 0
    else Fetched(details[..|details| - 1]) + (if details[|details| - 1].Detail? then 1 else 0)
  }

  /** Number of those whose `lastUpdated` is not null. */
  function Rescanned(details: seq<DetailReply>): nat
    decreases |details|
  {
    if details == [] then 0
    else
      var d := details[|details| - 1];
      Rescanned(details[..|details| - 1]) + (if d.Detail? && Field(d.body, "lastUpdated") != JNull then 1 else 0)
  }

  /** A scan that runs to the end queries one window per fetched avatar and a
      second one exactly for those whose `lastUpdated` is not null. */
  lemma {:induction false} ScheduleWindowCount(details: seq<DetailReply>)
    requires Schedule(details).stop == Finished
    ensures |Schedule(details).queries| == Fetched(details) + Rescanned(details)
  {
    if details != [] {
      ScheduleWindowCount(details[..|details| - 1]);
    }
  }

  /** The scan runs to the end exactly when no detail reply is unreachable,
      lacks an integer `dateAdded`, or has a `lastUpdated` that is neither
      null nor an integer. */
  lemma {:induction false} ScheduleFinishes(details: seq<DetailReply>)
    ensures Schedule(details).stop == Finished <==>
      forall k :: 0 <= k < |details| ==>
        && !details[k].Unreachable?
        && (details[k].Detail? ==>
              DateAdded(details[k].body).Some? && SecondProbe(details[k].body) != Panics)
  {
    if details != [] {
      var init := details[..|details| - 1];
      ScheduleFinishes(init);
      assert forall k :: 0 <= k < |init| ==> init[k] == details[k];
    }
  }

  /** A scan that stops early stops at one particular reply: every reply
      before it let the scan go on, and the scan is that prefix's queries
      followed by the reply's own, with the reply's exit. */
  lemma {:induction false} ScheduleStopsAt(details: seq<DetailReply>)
    requires Schedule(details).stop != Finished
    ensures exists k ::
      && 0 <= k < |details|
      && Schedule(details[..k]).stop == Finished
      && Schedule(details) == Scan(Schedule(details[..k]).queries + DetailScan(details[k]).queries, DetailScan(details[k]).stop)
  {
    var init := details[..|details| - 1];
    if Schedule(init).stop != Finished {
      ScheduleStopsAt(init);
      var k :| 0 <= k < |init| && Schedule(init[..k]).stop == Finished &&
        Schedule(init) == Scan(Schedule(init[..k]).queries + DetailScan(init[k]).queries, DetailScan(init[k]).stop);
      assert init[..k] == details[..k];
      assert init[k] == details[k];
    } else {
      var k := |details| - 1;
      assert details[..k] == init;
    }
  }
}
