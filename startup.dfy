/** Startup (`main`) and the store scan (`search_store`) over the files the
    program keeps in its configuration directory: the `auth` cookie, the
    `db_check.txt`, `user_id.txt` and `store_check.txt` markers and the
    `ripper.json` ledger. Network replies and query results are inputs. */
module Startup {
  import opened Ledger
  import opened Correlation
  import Cookies
  import Backfill

  /** The reply to the author search, `search_store`'s first request. */
  datatype SearchReply =
    | SearchUnreachable           // `send()?` fails
    | SearchRefused               // a status that is not success: nothing is scanned
    | SearchUnparsable            // the body or an avatar entry does not parse: `?` returns Err
    | SearchNoAvatars             // the body parses but has no `avatars` array: `unwrap` panics
    | Listed(idents: seq<string>)

  /** The reply to the request for the logged-in user's id. */
  datatype ProfileReply =
    | ProfileUnreachable          // `expect` panics
    | ProfileRefused              // a status that is not success: `user_id.txt` is not written
    | ProfileUnparsable           // `expect`/`unwrap` panics
    | ProfileId(id: string)

  /** One correlation window as the scan runs it: the window, the rows its
      query returned and the in-memory ledger after those rows. */
  datatype Pass = Pass(window: Window, rows: seq<string>, ledger: Ledger)

  /** Which phases a startup ran. */
  datatype Phases = Phases(login: bool, backfill: bool, profile: bool, store: bool)

  /** The ledger a window reads: the file's contents, or the empty map the
      program writes when the file is missing. */
  function Loaded(file: Option<Ledger>): Ledger
  {
    if file.Some? then file.value else map[]
  }

  /** The windows of `queries`, each applied to `file` and to nothing else. */
  function Replay(queries: seq<Query>, file: Ledger): seq<Pass>
    decreases |queries|
  {
    if queries == [] then []
    else
      var q := queries[|queries| - 1];
      Replay(queries[..|queries| - 1], file) + [Pass(q.window, q.rows, Tally(file, q.rows))]
  }

  /** How the store scan ends. */
  function StoreExit(search: SearchReply, details: seq<DetailReply>): Exit
  {
    match search
    case SearchUnreachable => Failed
    case SearchRefused => Finished
    case SearchUnparsable => Failed
    case SearchNoAvatars => Panicked
    case Listed(_) => Schedule(details).stop
  }

  /** How `main` ends when it stops before the store scan: a login error or
      an aborted backfill is returned by `?`, a failed profile request panics,
      and otherwise `user_id.txt` is missing and opening it fails. */
  function EarlyExit(ran: Phases, login: Option<seq<Cookies.Cookie>>, backfill: Backfill.Run, profile: ProfileReply): Exit
  {
    if ran.login && login.None? then Failed
    else if ran.backfill && backfill.Halted? then Failed
    else if ran.profile && (profile.ProfileUnreachable? || profile.ProfileUnparsable?) then Panicked
    else Failed
  }

  class AppDir {
    var auth: Option<string>        // the session cookie header, when `auth` exists
    var dbCheck: bool               // `db_check.txt` exists
    var userId: Option<string>      // the contents of `user_id.txt`, when it exists
    var storeCheck: bool            // `store_check.txt` exists
    var ripper: Option<Ledger>      // the contents of `ripper.json`, when it exists

    constructor (auth: Option<string>, dbCheck: bool, userId: Option<string>, storeCheck: bool, ripper: Option<Ledger>)
      ensures this.auth == auth && this.dbCheck == dbCheck && this.userId == userId
      ensures this.storeCheck == storeCheck && this.ripper == ripper
    {
      this.auth := auth;
      this.dbCheck := dbCheck;
      this.userId := userId;
      this.storeCheck := storeCheck;
      this.ripper := ripper;
    }

    /** One window: create `ripper.json` as `{}` when it is missing, read it,
        apply the window's rows to the map read, and drop the map. */
    method ScanWindow(t: int, rows: seq<string>) returns (pass: Pass)
      modifies this`ripper
      ensures ripper == Some(Loaded(old(ripper)))
      ensures pass == Pass(CenteredWindow(t), rows, Tally(Loaded(old(ripper)), rows))
    {
      if ripper.None? {
        ripper := Some(map[]);
      }
      var ledger := UpdateLedger(ripper.value, rows);
      pass := Pass(CenteredWindow(t), rows, ledger);
    }

    /** One avatar's detail reply: its first window, and its second one
        when `lastUpdated` is not null. */
    method ScanDetail(d: DetailReply) returns (stop: Exit, added: seq<Pass>)
      modifies this`ripper
      ensures stop == DetailScan(d).stop
      ensures added == Replay(DetailScan(d).queries, Loaded(old(ripper)))
      ensures ripper == if old(ripper).None? && added != [] then Some(map[]) else old(ripper)
    {
      added := [];
      match d {
        case Unreachable =>
          stop := Failed;
        case Refused =>
          stop := Finished;
        case Detail(body, joined, rejoined) =>
          match DateAdded(body) {
            case None =>
              stop := Panicked;
            case Some(t) =>
              var first := ScanWindow(t, joined);
              added := [first];
              assert [Query(CenteredWindow(t), joined)][..0] == [];
              match SecondProbe(body) {
                case Skip =>
                  stop := Finished;
                case Centered(u) =>
                  var second := ScanWindow(u, rejoined);
                  added := added + [second];
                  ReplaySnoc([Query(CenteredWindow(t), joined)], Query(CenteredWindow(u), rejoined), Loaded(old(ripper)));
                  stop := Finished;
                case Panics =>
                  stop := Panicked;
              }
          }
      }
    }

    /** The loop over the avatar idents: each detail reply in turn, until
        one ends the scan. */
    method ScanDetails(details: seq<DetailReply>) returns (stop: Exit, passes: seq<Pass>)
      modifies this`ripper
      ensures stop == Schedule(details).stop
      ensures passes == Replay(Schedule(details).queries, Loaded(old(ripper)))
      ensures ripper == if old(ripper).None? && passes != [] then Some(map[]) else old(ripper)
    {
      passes := [];
      var i := 0;
      while i < |details|
        invariant 0 <= i <= |details|
        invariant Schedule(details[..i]).stop == Finished
        invariant passes == Replay(Schedule(details[..i]).queries, Loaded(old(ripper)))
        invariant ripper == if old(ripper).None? && passes != [] then Some(map[]) else old(ripper)
      {
        ScheduleExtend(details, i, Loaded(old(ripper)));
        var here, added := ScanDetail(details[i]);
        passes := passes + added;
        if here != Finished {
          stop := here;
          return;
        }
        i := i + 1;
      }
      assert details[..|details|] == details;
      stop := Finished;
    }

    /** The store scan. The ledger file is never written back: every window
        starts again from the file, and the file only ever goes from missing
        to `{}`. */
    method SearchStore(search: SearchReply, details: seq<DetailReply>) returns (exit: Exit, total: nat, passes: seq<Pass>)
      requires search.Listed? ==> |details| == |search.idents|
      modifies this`ripper, this`storeCheck
      ensures exit == StoreExit(search, details)
      ensures total == if search.Listed? then |search.idents| else 0
      ensures passes == if search.Listed? then Replay(Schedule(details).queries, Loaded(old(ripper))) else []
      ensures ripper == if old(ripper).None? && search.Listed? && Schedule(details).queries != [] then Some(map[]) else old(ripper)
      ensures storeCheck == (old(storeCheck) || (search.Listed? && exit == Finished))
    {
      total, passes := 0, [];
      if !search.Listed? {
        exit := match search
          case SearchRefused => Finished
          case SearchNoAvatars => Panicked
          case _ => Failed;
        return;
      }
      // the `avatar_total` counter, one step per avatar entry parsed
      for a := 0 to |search.idents|
        invariant total == a
      {
        total := total + 1;
      }
      exit, passes := ScanDetails(details);
      ReplayLen(Schedule(details).queries, Loaded(old(ripper)));
      if exit == Finished {
        storeCheck := true;
      }
    }

    /** `main`: each phase runs only when its marker is missing, and the
        store scan runs whenever the earlier phases did not stop the
        program. `login` is None when the login flow returns an error and
        otherwise holds the cookies of its final response. */
    method Start(login: Option<seq<Cookies.Cookie>>, rows: seq<Backfill.Row>, replies: seq<Backfill.Reply>,
                 profile: ProfileReply, search: SearchReply, details: seq<DetailReply>)
      returns (exit: Exit, ran: Phases)
      requires |rows| == |replies|
      requires search.Listed? ==> |details| == |search.idents|
      modifies this
      ensures ran.login == old(auth).None?
      ensures auth == if ran.login && login.Some? then Some(Cookies.FilterCookie(login.value)) else old(auth)
      ensures ran.backfill == (old(dbCheck) == false && auth.Some?)
      ensures dbCheck == (old(dbCheck) || (ran.backfill && Backfill.RunBackfill(rows, replies).Running?))
      ensures ran.profile == (auth.Some? && dbCheck && old(userId).None?)
      ensures userId == if ran.profile && profile.ProfileId? then Some(profile.id) else old(userId)
      ensures ran.store == (auth.Some? && dbCheck && userId.Some?)
      ensures storeCheck == (old(storeCheck) || (ran.store && search.Listed? && exit == Finished))
      ensures ripper == if ran.store && old(ripper).None? && search.Listed? && Schedule(details).queries != [] then Some(map[]) else old(ripper)
      ensures ran.store ==> exit == StoreExit(search, details)
      ensures !ran.store ==> exit == EarlyExit(ran, login, Backfill.RunBackfill(rows, replies), profile)
      ensures exit == Finished ==> ran.store
      ensures old(auth).Some? && old(dbCheck) && old(userId).Some? ==>
        !ran.login && !ran.backfill && !ran.profile && ran.store
    {
      ran := Phases(false, false, false, false);
      if auth.None? {
        ran := ran.(login := true);
        if login.None? {
          exit := Failed;
          return;
        }
        auth := Some(Cookies.FilterCookie(login.value));
      }
      if !dbCheck {
        ran := ran.(backfill := true);
        var run := Backfill.SearchOldLogs(rows, replies);
        if run.Halted? {
          exit := Failed;
          return;
        }
        dbCheck := true;
      }
      if userId.None? {
        ran := ran.(profile := true);
        match profile {
          case ProfileUnreachable =>
            exit := Panicked;
            return;
          case ProfileRefused =>
          case ProfileUnparsable =>
            exit := Panicked;
            return;
          case ProfileId(id) =>
            userId := Some(id);
        }
      }
      if auth.Some? && dbCheck {
        if userId.None? {
          exit := Failed;
          return;
        }
        ran := ran.(store := true);
        var total, passes;
        exit, total, passes := SearchStore(search, details);
        return;
      }
      exit := Finished;
    }
  }

  lemma ReplaySnoc(queries: seq<Query>, q: Query, file: Ledger)
    ensures Replay(queries + [q], file) == Replay(queries, file) + [Pass(q.window, q.rows, Tally(file, q.rows))]
  {
    assert (queries + [q])[..|queries|] == queries;
  }

  /** Every window's ledger is the file updated by that window's rows alone:
      nothing from an earlier window is carried into a later one. */
  lemma {:induction false} ReplayAt(queries: seq<Query>, file: Ledger, k: nat)
    requires k < |queries|
    ensures |Replay(queries, file)| == |queries|
    ensures Replay(queries, file)[k] == Pass(queries[k].window, queries[k].rows, Tally(file, queries[k].rows))
  {
    var n := |queries| - 1;
    if k < n {
      ReplayAt(queries[..n], file, k);
    } else if n > 0 {
      ReplayAt(queries[..n], file, n - 1);
    }
  }

  /** One pass per window. */
  lemma ReplayLen(queries: seq<Query>, file: Ledger)
    ensures |Replay(queries, file)| == |queries|
  {
    if queries != [] {
      ReplayAt(queries, file, 0);
    }
  }

  /** One more detail reply extends the scan by that reply's windows. */
  lemma ScheduleExtend(details: seq<DetailReply>, i: nat, file: Ledger)
    requires i < |details| && Schedule(details[..i]).stop == Finished
    ensures Schedule(details[..i + 1]).stop == DetailScan(details[i]).stop
    ensures Replay(Schedule(details[..i + 1]).queries, file) ==
      Replay(Schedule(details[..i]).queries, file) + Replay(DetailScan(details[i]).queries, file)
    ensures DetailScan(details[i]).stop != Finished ==> Schedule(details) == Schedule(details[..i + 1])
  {
    assert details[..i + 1] == details[..i] + [details[i]];
    ScheduleSnoc(details[..i], details[i]);
    ReplayAppend(Schedule(details[..i]).queries, DetailScan(details[i]).queries, file);
    if DetailScan(details[i]).stop != Finished {
      ScheduleStops(details, i + 1);
    }
  }

  lemma {:induction false} ReplayAppend(first: seq<Query>, second: seq<Query>, file: Ledger)
    ensures Replay(first + second, file) == Replay(first, file) + Replay(second, file)
  {
    if second == [] {
      assert first + second == first;
    } else {
      var init, last := second[..|second| - 1], second[|second| - 1];
      ReplayAppend(first, init, file);
      assert first + second == (first + init) + [last];
      ReplaySnoc(first + init, last, file);
      ReplaySnoc(init, last, file);
      assert init + [last] == second;
    }
  }
}
