/** The consistency pass at startup: event conversations are rebound to current owners, orphaned jobs disabled. */
module StartupChecks {
  import opened Options
  import opened CronSchedule
  import opened JobTables

  datatype ConvId = ConvId(n: int)
  type UserId = int

  datatype AppConfig = AppConfig(allowedUsers: seq<string>)

  /** What does not change during the pass: the configured apps and the known users. */
  datatype Directory = Directory(apps: map<App, AppConfig>, users: map<string, UserId>) {
    /** The user an app's event conversation should belong to, if the configuration and the user table name one. */
    function OwnerOf(app: App): Option<UserId> {
      if app !in apps then None
      else if apps[app].allowedUsers == [] then None
      else if apps[app].allowedUsers[0] !in users then None
      else Some(users[apps[app].allowedUsers[0]])
    }
  }

  /** The tables the pass works on. */
  datatype Db = Db(mappings: map<App, ConvId>, conversations: map<ConvId, UserId>, jobs: map<RowId, Job>)

  /** The mapping is stale: its conversation is gone. */
  predicate IsStale(dir: Directory, db: Db, app: App) {
    app in db.mappings && dir.OwnerOf(app).Some? && db.mappings[app] !in db.conversations
  }

  /** The mapping points to another user's conversation. */
  predicate IsMisbound(dir: Directory, db: Db, app: App) {
    && app in db.mappings && dir.OwnerOf(app).Some? && db.mappings[app] in db.conversations
    && db.conversations[db.mappings[app]] != dir.OwnerOf(app).value
  }

  /** `after` has `app` rebound to a conversation of its owner that did not exist before. */
  predicate IsRebound(dir: Directory, before: Db, after: Db, app: App) {
    && app in after.mappings && dir.OwnerOf(app).Some?
    && after.mappings[app] !in before.conversations && after.mappings[app] in after.conversations
    && after.conversations[after.mappings[app]] == dir.OwnerOf(app).value
  }

  /** What happens to the mapping of one app. */
  ghost predicate MappingDone(dir: Directory, before: Db, after: Db, app: App) {
    if IsStale(dir, before, app) then app !in after.mappings
    else if IsMisbound(dir, before, app) then IsRebound(dir, before, after, app)
    else (app in after.mappings <==> app in before.mappings)
         && (app in before.mappings ==> after.mappings[app] == before.mappings[app])
  }

  /** Conversations are only added, one for each rebound app. */
  ghost predicate ConversationsDone(before: Db, after: Db, rebound: seq<App>) {
    && (forall c | c in before.conversations :: c in after.conversations && after.conversations[c] == before.conversations[c])
    && (forall c | c in after.conversations && c !in before.conversations ::
          exists i :: 0 <= i < |rebound| && rebound[i] in after.mappings && after.mappings[rebound[i]] == c)
    && (forall i | 0 <= i < |rebound| :: rebound[i] in after.mappings)
    && (forall i, j | 0 <= i < j < |rebound| ::
          rebound[i] != rebound[j] && after.mappings[rebound[i]] != after.mappings[rebound[j]])
  }

  /** The whole pass. */
  ghost predicate IsPass(dir: Directory, before: Db, after: Db, rebound: seq<App>, now: Instant) {
    && (forall app :: MappingDone(dir, before, after, app))
    && (forall app :: app in rebound <==> IsMisbound(dir, before, app))
    && ConversationsDone(before, after, rebound)
    && SameRows(after.jobs, DisableOrphans(before.jobs, dir.apps.Keys, now))
  }

  /** The same rows, each the same. */
  ghost predicate SameRows(a: map<RowId, Job>, b: map<RowId, Job>) {
    && (forall id | id in a :: id in b && a[id] == b[id])
    && (forall id | id in b :: id in a)
  }

  // ---------------------------------------------------------------------------
  // What the pass achieves
  // ---------------------------------------------------------------------------

  /**
   Nothing is left for a pass to do: where an app is configured and its first allowed user is known, its conversation is
   that user's; and every enabled job belongs to a configured app.
   */
  ghost predicate IsConsistent(dir: Directory, db: Db) {
    && (forall app | app in db.mappings && app in dir.apps ::
          var users := dir.apps[app].allowedUsers;
          users != [] && users[0] in dir.users ==>
            db.mappings[app] in db.conversations && db.conversations[db.mappings[app]] == dir.users[users[0]])
    && (forall id | id in db.jobs && db.jobs[id].enabled :: db.jobs[id].owner in dir.apps)
  }

  /**
   After the pass every mapping whose owner can be resolved points to that owner's conversation, and every enabled job
   belongs to a configured app. Jobs that were disabled already, or whose app is configured, are as they were; the others
   carry the moment they were disabled.
   */
  lemma PassMakesConsistent(dir: Directory, before: Db, after: Db, rebound: seq<App>, now: Instant)
    requires IsPass(dir, before, after, rebound, now)
    ensures IsConsistent(dir, after)
    ensures forall id | id in before.jobs && !before.jobs[id].enabled :: id in after.jobs && after.jobs[id] == before.jobs[id]
    ensures forall id | id in before.jobs && before.jobs[id].owner in dir.apps :: id in after.jobs && after.jobs[id] == before.jobs[id]
    ensures forall id | id in before.jobs && before.jobs[id].enabled && before.jobs[id].owner !in dir.apps ::
              id in after.jobs && IsStopped(before.jobs[id], now, after.jobs[id])
  {
    forall app | app in after.mappings && dir.OwnerOf(app).Some?
      ensures after.mappings[app] in after.conversations
      ensures after.conversations[after.mappings[app]] == dir.OwnerOf(app).value
    {
      assert MappingDone(dir, before, after, app);
    }
  }

  lemma EmptyOrHeaded(apps: seq<App>)
    ensures apps == [] || exists app :: app in apps
  {
    if apps != [] {
      assert apps[0] in apps;
    }
  }

  /** On consistent tables a pass changes nothing. */
  lemma PassOnConsistent(dir: Directory, before: Db, after: Db, rebound: seq<App>, now: Instant)
    requires IsConsistent(dir, before) && IsPass(dir, before, after, rebound, now)
    ensures rebound == [] && after.mappings == before.mappings && after.conversations == before.conversations
    ensures SameRows(after.jobs, before.jobs)
  {
    EmptyOrHeaded(rebound);
    assert after.mappings == before.mappings by {
      forall app
        ensures app in after.mappings <==> app in before.mappings
        ensures app in before.mappings ==> after.mappings[app] == before.mappings[app]
      {
        assert MappingDone(dir, before, after, app);
      }
    }
    assert after.conversations.Keys == before.conversations.Keys;
  }

  /** The pass is idempotent: a second one, at any later time, changes nothing. */
  lemma PassIsIdempotent(dir: Directory, a: Db, b: Db, c: Db, first: seq<App>, second: seq<App>, now: Instant, later: Instant)
    requires IsPass(dir, a, b, first, now) && IsPass(dir, b, c, second, later)
    ensures second == [] && c.mappings == b.mappings && c.conversations == b.conversations && SameRows(c.jobs, b.jobs)
  {
    PassMakesConsistent(dir, a, b, first, now);
    PassOnConsistent(dir, b, c, second, later);
  }

  // ---------------------------------------------------------------------------
  // The pass as the program runs it
  // ---------------------------------------------------------------------------

  class StartupDb {
    const dir: Directory
    var mappings: map<App, ConvId>
    var conversations: map<ConvId, UserId>
    var jobs: map<RowId, Job>
    var nextConversation: ConvId

    ghost function View(): Db
      reads this
    {
      Db(mappings, conversations, jobs)
    }

    /** A new conversation gets an id that no conversation has and no mapping names. */
    ghost predicate Valid()
      reads this
    {
      && (forall c | c in conversations :: c.n < nextConversation.n)
      && (forall app | app in mappings :: mappings[app].n < nextConversation.n)
    }

    constructor (dir: Directory, db: Db, nextConversation: ConvId)
      requires forall c | c in db.conversations :: c.n < nextConversation.n
      requires forall app | app in db.mappings :: db.mappings[app].n < nextConversation.n
      ensures Valid() && View() == db && this.dir == dir
    {
      this.dir := dir;
      mappings, conversations, jobs := db.mappings, db.conversations, db.jobs;
      this.nextConversation := nextConversation;
    }

    method CreateConversation(user: UserId) returns (id: ConvId)
      requires Valid()
      modifies this
      ensures Valid() && id == old(nextConversation) && id !in old(conversations)
      ensures View() == old(View()).(conversations := old(conversations)[id := user])
      ensures id.n < nextConversation.n
    {
      id := nextConversation;
      conversations := conversations[id := user];
      nextConversation := ConvId(nextConversation.n + 1);
    }

    /** One mapping: skipped, deleted, kept, or rebound to a new conversation. */
    method RebindOne(app: App) returns (rebound: bool)
      requires Valid() && app in mappings
      modifies this
      ensures Valid() && rebound == IsMisbound(dir, old(View()), app)
      ensures View() == RebindDb(dir, old(View()), app, old(nextConversation))
      ensures old(nextConversation).n <= nextConversation.n
    {
      var stored := mappings[app];
      rebound := false;
      if app !in dir.apps || dir.apps[app].allowedUsers == [] || dir.apps[app].allowedUsers[0] !in dir.users {
        return;
      }
      var owner := dir.users[dir.apps[app].allowedUsers[0]];
      if stored !in conversations {
        mappings := mappings - {app};
        return;
      }
      if conversations[stored] == owner {
        return;
      }
      var newConv := CreateConversation(owner);
      rebound := true;
      mappings := mappings[app := newConv];
    }

    /** The rebinding loop. */
    method RebindAll() returns (rebound: seq<App>)
      requires Valid()
      modifies this
      ensures Valid() && IsRebinding(dir, old(View()), View(), old(mappings).Keys, rebound)
    {
      ghost var before := View();
      rebound := [];
      var rows := Enumerate(mappings.Keys);
      ghost var done: set<App> := {};
      for i := 0 to |rows|
        invariant Valid() && IsRebinding(dir, before, View(), done, rebound)
        invariant forall app :: app in done <==> app in rows[..i]
        invariant forall app | app in before.mappings :: before.mappings[app].n < nextConversation.n
      {
        assert rows[i] !in rows[..i] && rows[..i + 1] == rows[..i] + [rows[i]];
        assert SameMapping(before, View(), rows[i]);
        RebindStep(dir, before, View(), done, rebound, rows[i], nextConversation);
        var hit := RebindOne(rows[i]);
        done := done + {rows[i]};
        if hit {
          rebound := rebound + [rows[i]];
        }
      }
      assert rows[..|rows|] == rows;
      assert done == before.mappings.Keys;
    }

    /** The orphan loop: one bulk update per app that is no longer configured. */
    method DisableOrphanJobs(now: Instant)
      modifies this`jobs
      ensures SameRows(jobs, DisableOrphans(old(jobs), dir.apps.Keys, now))
    {
      ghost var before := jobs;
      var slugs := Enumerate(set id | id in jobs && jobs[id].enabled :: jobs[id].owner);
      for i := 0 to |slugs|
        invariant SameRows(jobs, DisableListed(before, slugs[..i], dir.apps.Keys, now))
      {
        DisableOneMore(before, jobs, slugs, i, dir.apps.Keys, now);
        if slugs[i] !in dir.apps {
          jobs := DisableOwner(jobs, slugs[i], now);
        }
      }
      AllListed(before, slugs, dir.apps.Keys, now);
    }

    /** Both checks, under one hold of the lock. */
    method RunConsistencyChecks(now: Instant) returns (rebound: seq<App>)
      requires Valid()
      modifies this
      ensures Valid() && IsPass(dir, old(View()), View(), rebound, now)
    {
      ghost var before := View();
      rebound := RebindAll();
      ghost var mid := View();
      DisableOrphanJobs(now);
      RebindingIsPass(dir, before, mid, View(), rebound, now);
    }
  }

  /** The elements of a set, each once. */
  method Enumerate(s: set<App>) returns (rows: seq<App>)
    ensures forall app :: app in rows <==> app in s
    ensures forall i, j | 0 <= i < j < |rows| :: rows[i] != rows[j]
  {
    rows := [];
    var rest := s;
    while rest != {}
      invariant rest <= s
      invariant forall app :: app in rows <==> app in s && app !in rest
      invariant forall i, j | 0 <= i < j < |rows| :: rows[i] != rows[j]
      decreases |rest|
    {
      var app :| app in rest;
      rows := rows + [app];
      rest := rest - {app};
    }
  }

  /** What one turn of the rebinding loop does, when a new conversation would get id `newConv`. */
  function RebindDb(dir: Directory, db: Db, app: App, newConv: ConvId): Db {
    if IsStale(dir, db, app) then db.(mappings := db.mappings - {app})
    else if IsMisbound(dir, db, app) then
      db.(mappings := db.mappings[app := newConv], conversations := db.conversations[newConv := dir.OwnerOf(app).value])
    else db
  }

  predicate SameMapping(before: Db, after: Db, app: App) {
    && (app in after.mappings <==> app in before.mappings)
    && (app in before.mappings ==> after.mappings[app] == before.mappings[app])
  }

  /** The rebinding, with the apps in `done` dealt with and the others as they were. */
  ghost predicate IsRebinding(dir: Directory, before: Db, db: Db, done: set<App>, rebound: seq<App>) {
    && (forall app | app in done :: MappingDone(dir, before, db, app))
    && (forall app | app !in done :: SameMapping(before, db, app))
    && (forall app :: app in rebound <==> app in done && IsMisbound(dir, before, app))
    && ConversationsDone(before, db, rebound)
    && (forall c, app | c in db.conversations && c !in before.conversations && app in before.mappings :: before.mappings[app] != c)
    && db.jobs == before.jobs
  }

  /** One turn of the rebinding loop. */
  lemma RebindStep(dir: Directory, before: Db, db: Db, done: set<App>, rebound: seq<App>, app: App, newConv: ConvId)
    requires IsRebinding(dir, before, db, done, rebound)
    requires app !in done && app in before.mappings
    requires newConv !in db.conversations && forall a | a in db.mappings :: db.mappings[a] != newConv
    requires forall a | a in before.mappings :: before.mappings[a] != newConv
    ensures IsMisbound(dir, db, app) == IsMisbound(dir, before, app)
    ensures IsRebinding(dir, before, RebindDb(dir, db, app, newConv), done + {app},
                        if IsMisbound(dir, db, app) then rebound + [app] else rebound)
  {
    assert SameMapping(before, db, app);
    assert IsStale(dir, db, app) == IsStale(dir, before, app);
    assert IsMisbound(dir, db, app) == IsMisbound(dir, before, app);
    var after := RebindDb(dir, db, app, newConv);
    forall a | a in done
      ensures MappingDone(dir, before, after, a)
    {
      assert MappingDone(dir, before, db, a);
    }
    forall a | a !in done + {app}
      ensures SameMapping(before, after, a)
    {
      assert SameMapping(before, db, a);
    }
    if IsMisbound(dir, db, app) {
      ConversationAdded(before, db, after, rebound, app, newConv);
    }
  }

  lemma ConversationAdded(before: Db, db: Db, after: Db, rebound: seq<App>, app: App, newConv: ConvId)
    requires ConversationsDone(before, db, rebound) && app !in rebound
    requires newConv !in db.conversations && forall a | a in db.mappings :: db.mappings[a] != newConv
    requires after.mappings == db.mappings[app := newConv]
    requires newConv in after.conversations && after.conversations == db.conversations[newConv := after.conversations[newConv]]
    ensures ConversationsDone(before, after, rebound + [app])
  {
    var more := rebound + [app];
    forall c | c in after.conversations && c !in before.conversations
      ensures exists i :: 0 <= i < |more| && more[i] in after.mappings && after.mappings[more[i]] == c
    {
      if c == newConv {
        assert more[|rebound|] == app;
      } else {
        var i :| 0 <= i < |rebound| && rebound[i] in db.mappings && db.mappings[rebound[i]] == c;
        assert more[i] == rebound[i] && more[i] != app;
      }
    }
  }

  lemma RebindingIsPass(dir: Directory, before: Db, mid: Db, after: Db, rebound: seq<App>, now: Instant)
    requires IsRebinding(dir, before, mid, before.mappings.Keys, rebound)
    requires after == mid.(jobs := after.jobs) && SameRows(after.jobs, DisableOrphans(before.jobs, dir.apps.Keys, now))
    ensures IsPass(dir, before, after, rebound, now)
  {
    forall app
      ensures MappingDone(dir, before, after, app)
    {
      if app in before.mappings {
        assert MappingDone(dir, before, mid, app);
      } else {
        assert SameMapping(before, mid, app);
      }
    }
  }

  /** The bulk update: every enabled job of one app is disabled. */
  function DisableOwner(jobs: map<RowId, Job>, slug: App, now: Instant): map<RowId, Job> {
    map id | id in jobs :: if jobs[id].owner == slug && jobs[id].enabled then DisabledRow(jobs[id], now) else jobs[id]
  }

  function ListedRow(row: Job, slugs: seq<App>, configured: set<App>, now: Instant): Job {
    if row.enabled && row.owner !in configured && row.owner in slugs then DisabledRow(row, now) else row
  }

  function DisableListed(jobs: map<RowId, Job>, slugs: seq<App>, configured: set<App>, now: Instant): map<RowId, Job> {
    map id | id in jobs :: ListedRow(jobs[id], slugs, configured, now)
  }

  lemma DisableOneMore(before: map<RowId, Job>, jobs: map<RowId, Job>, slugs: seq<App>, i: nat, configured: set<App>, now: Instant)
    requires i < |slugs| && SameRows(jobs, DisableListed(before, slugs[..i], configured, now))
    ensures SameRows(if slugs[i] in configured then jobs else DisableOwner(jobs, slugs[i], now),
                     DisableListed(before, slugs[..i + 1], configured, now))
  {
    forall id | id in before
      ensures ListedRow(before[id], slugs[..i + 1], configured, now) ==
              if slugs[i] in configured || jobs[id].owner != slugs[i] || !jobs[id].enabled then jobs[id]
              else DisabledRow(jobs[id], now)
    {
      OneMoreListed(before[id], slugs, i, configured, now);
      assert jobs[id] == ListedRow(before[id], slugs[..i], configured, now);
    }
  }

  lemma OneMoreListed(row: Job, slugs: seq<App>, i: nat, configured: set<App>, now: Instant)
    requires i < |slugs|
    ensures ListedRow(row, slugs[..i + 1], configured, now) ==
            var r := ListedRow(row, slugs[..i], configured, now);
            if slugs[i] in configured || row.owner != slugs[i] || !r.enabled then r else DisabledRow(r, now)
  {
    assert slugs[..i + 1] == slugs[..i] + [slugs[i]];
  }

  /** When the list has the owner of every enabled job, that is all orphans. */
  lemma AllListed(jobs: map<RowId, Job>, slugs: seq<App>, configured: set<App>, now: Instant)
    requires forall id | id in jobs && jobs[id].enabled :: jobs[id].owner in slugs
    ensures SameRows(DisableListed(jobs, slugs[..|slugs|], configured, now), DisableOrphans(jobs, configured, now))
  {
    assert slugs[..|slugs|] == slugs;
  }
}
