/**
 * PlayerDataFileStoreListener: keeps a player's saved data in a database
 * across servers.  A quit starts a worker that waits for the server to write
 * the player's files and stores them; while that worker is in `workTable`
 * the same player may not log in.  The database itself is outside the model:
 * each handler is given what the database answers.
 */
module PlayerDataStoreListener {
  import opened Wrappers
  import opened Strings

  type Uuid = int

  /** A PlayerDataFileStoreAsyncThread, by identity. */
  type Worker = nat

  /** The userdatadb.* settings; a missing key reads as None (null). */
  datatype DbSettings = DbSettings(
    db: Option<string>, name: Option<string>, server: Option<string>,
    user: Option<string>, pass: Option<string>)

  datatype StoreKind = SqliteStore | MySqlStore

  /** A PlayerFileStore that connected, and the settings it was built from. */
  datatype Store = Store(kind: StoreKind, settings: DbSettings)

  datatype Ope = Load | Start | IsLogout

  /** What the database answers for one player during loadPlayerData:
      whether the connection and the queries up to the operation's own one
      succeed, whether a record exists, and whether that record is marked as
      logged out.  A failing commit afterwards rolls back but does not change
      an ISLOGOUT answer already read, so it is not part of `reachable`. */
  datatype DbAnswer = DbAnswer(reachable: bool, found: bool, afterLogout: bool)

  /** loadPlayerData(p, ope): true unless the ISLOGOUT query finds an
      existing record that is not marked as logged out.  A SQL or I/O
      failure before that query answers leaves the result true. */
  function LoadResult(ope: Ope, ans: DbAnswer): (r: bool)
  {
    !(ope == IsLogout && ans.reachable && ans.found && !ans.afterLogout)
  }

  /** The only way loadPlayerData reports "not yet logged out", and an
      unreachable database lets the login through. */
  lemma LoadResultFalseIff(ope: Ope, ans: DbAnswer)
    ensures !LoadResult(ope, ans) <==> ope == IsLogout && ans.reachable && ans.found && !ans.afterLogout
    ensures !ans.reachable ==> LoadResult(ope, ans)
    ensures ope != IsLogout ==> LoadResult(ope, ans)
  {
  }

  /** Whether loadPlayerData changed the database (START) or the player's
      files (LOAD). */
  function Performs(ope: Ope, ans: DbAnswer): bool
  {
    ope != IsLogout && ans.reachable && ans.found
  }

  /** What the handlers did outside the tables, in order. */
  datatype Effect =
    | WorkerStarted(uid: Uuid, worker: Worker)   // new thread, runTaskTimer(plg, 0, 5)
    | DbDone(ope: Ope, uid: Uuid)                // logoutPlayer / loadPlayerData in the store
    | PlayerSaved(uid: Uuid)                     // getPlayer().saveData()
    | PayloadSent(worker: Worker, uid: Uuid)     // t.sendData(payload)

  datatype LoginResult = Allowed | KickOther(why: KickReason) | OtherResult
  datatype KickReason = LocalLogoutInProgress | RemoteLogoutInProgress

  datatype ReloadOutcome = Reloaded | KeptPrevious | NullDbSetting

  /** The fields before any settings were read: all null. */
  const NoSettings := DbSettings(None, None, None, None, None)

  class Listener {
    var settings: DbSettings
    var store: Option<Store>
    var workTable: map<Uuid, Worker>
    /** The next worker identity; every worker ever built is below it. */
    var nextWorker: Worker
    /** Workers whose timer was cancelled. */
    var cancelled: set<Worker>
    var effects: seq<Effect>

    /** Each tabled worker was built here, is still running, and belongs to
        exactly one player; only workers built here were cancelled. */
    ghost predicate Valid()
      reads this
    {
      && (forall u :: u in workTable ==> workTable[u] < nextWorker && workTable[u] !in cancelled)
      && (forall w :: w in cancelled ==> w < nextWorker)
      && (forall u, v :: u in workTable && v in workTable && u != v ==> workTable[u] != workTable[v])
    }

    /** The constructor: empty tables, then reloadNotify() on the settings
        read at that moment.  Registering with the configuration's notify
        list is not part of this model.  A missing kind is refused by
        NewListener before a listener exists. */
    constructor (cfg: DbSettings, connects: bool)
      ensures Valid() && workTable == map[] && nextWorker == 0 && cancelled == {} && effects == []
      ensures store.Some? <==>
                cfg.db.Some? && (Lower(cfg.db.value) == "sqlite" || Lower(cfg.db.value) == "mysql") && connects
      ensures store.Some? ==>
                settings == cfg
                && store.value == Store(if Lower(cfg.db.value) == "sqlite" then SqliteStore else MySqlStore, cfg)
      ensures store.None? ==> settings == NoSettings
    {
      settings := NoSettings;
      store := None;
      workTable := map[];
      nextWorker := 0;
      cancelled := {};
      effects := [];
      new;
      var _ := ReloadNotify(cfg, connects);
    }

    /** reloadNotify(): re-reads the settings and, when the kind is "sqlite"
        or "mysql" (any case) and the store can be built (`connects`),
        replaces the settings and the store; otherwise keeps both.  A missing
        kind dereferences null. */
    method ReloadNotify(cfg: DbSettings, connects: bool) returns (r: ReloadOutcome)
      requires Valid()
      modifies this`settings, this`store
      ensures Valid()
      ensures cfg.db.None? ==> r == NullDbSetting
      ensures r == Reloaded <==>
                cfg.db.Some? && (Lower(cfg.db.value) == "sqlite" || Lower(cfg.db.value) == "mysql") && connects
      ensures r == Reloaded ==>
                settings == cfg
                && store == Some(Store(if Lower(cfg.db.value) == "sqlite" then SqliteStore else MySqlStore, cfg))
      ensures r != Reloaded ==> settings == old(settings) && store == old(store)
    {
      if cfg.db.None? {
        return NullDbSetting;
      }
      var kind: StoreKind;
      if Lower(cfg.db.value) == "sqlite" {
        kind := SqliteStore;
      } else if Lower(cfg.db.value) == "mysql" {
        kind := MySqlStore;
      } else {
        return KeptPrevious;
      }
      if !connects {
        return KeptPrevious;
      }
      settings := cfg;
      store := Some(Store(kind, cfg));
      r := Reloaded;
    }

    /** PlayerQuitEvent: with a store and no save already running for the
        player, tables a fresh worker first, then marks the logout in the
        database, saves the player and hands the worker its payload. */
    method Quit(uid: Uuid, ans: DbAnswer)
      requires Valid()
      modifies this`workTable, this`nextWorker, this`effects
      ensures Valid()
      ensures store.None? || uid in old(workTable) ==>
                workTable == old(workTable) && effects == old(effects) && nextWorker == old(nextWorker)
      ensures store.Some? && uid !in old(workTable) ==>
                var w := old(nextWorker);
                && workTable == old(workTable)[uid := w]
                && (forall v :: v in old(workTable) ==> old(workTable)[v] != w)
                && effects == old(effects) + [WorkerStarted(uid, w)]
                   + (if Performs(Start, ans) then [DbDone(Start, uid)] else [])
                   + [PlayerSaved(uid), PayloadSent(w, uid)]
    {
      if store.None? {
        return;
      }
      if uid in workTable {
        return;
      }
      var t := nextWorker;
      nextWorker := nextWorker + 1;
      effects := effects + [WorkerStarted(uid, t)];
      workTable := workTable[uid := t];
      var _ := LoadPlayerData(uid, Start, ans);
      effects := effects + [PlayerSaved(uid), PayloadSent(t, uid)];
    }

    /** loadPlayerData(p, ope). */
    method LoadPlayerData(uid: Uuid, ope: Ope, ans: DbAnswer) returns (result: bool)
      modifies this`effects
      ensures result == LoadResult(ope, ans)
      ensures effects == old(effects) + (if Performs(ope, ans) then [DbDone(ope, uid)] else [])
    {
      result := true;
      if ans.reachable && ans.found {
        match ope
        case Load => effects := effects + [DbDone(Load, uid)];
        case Start => effects := effects + [DbDone(Start, uid)];
        case IsLogout => result := ans.afterLogout;
      }
    }

    /** RejectPlayer (LOWEST priority login handler): leaves a login that is
        already refused alone; refuses a player whose save is still running
        here, or whom the database does not show as logged out. */
    method RejectPlayer(uid: Uuid, result: LoginResult, ans: DbAnswer) returns (r: LoginResult)
      ensures store.None? || result != Allowed ==> r == result
      ensures store.Some? && result == Allowed ==>
                (uid in workTable ==> r == KickOther(LocalLogoutInProgress))
                && (uid !in workTable && !LoadResult(IsLogout, ans) ==> r == KickOther(RemoteLogoutInProgress))
                && (r == Allowed <==> uid !in workTable && LoadResult(IsLogout, ans))
    {
      if store.None? {
        return result;
      }
      if result != Allowed {
        return result;
      }
      if uid in workTable {
        return KickOther(LocalLogoutInProgress);
      }
      var loggedOut := LoadResult(IsLogout, ans);
      if !loggedOut {
        return KickOther(RemoteLogoutInProgress);
      }
      r := result;
    }

    /** PlayerLoginEvent (MONITOR priority): loads the player's data only
        when the login is still allowed. */
    method Login(uid: Uuid, result: LoginResult, ans: DbAnswer)
      modifies this`effects
      ensures store.None? || result != Allowed ==> effects == old(effects)
      ensures store.Some? && result == Allowed ==>
                effects == old(effects) + (if Performs(Load, ans) then [DbDone(Load, uid)] else [])
    {
      if store.None? {
        return;
      }
      if result != Allowed {
        return;
      }
      var _ := LoadPlayerData(uid, Load, ans);
    }

    /** complete(uid): cancels the player's worker and drops its entry; for
        a player without an entry the lookup yields null and the call fails. */
    method Complete(uid: Uuid) returns (ok: bool)
      requires Valid()
      modifies this`workTable, this`cancelled
      ensures Valid()
      ensures ok == (uid in old(workTable))
      ensures ok ==> workTable == old(workTable) - {uid} && cancelled == old(cancelled) + {old(workTable)[uid]}
      ensures !ok ==> workTable == old(workTable) && cancelled == old(cancelled)
    {
      if uid !in workTable {
        return false;
      }
      var t := workTable[uid];
      cancelled := cancelled + {t};
      workTable := workTable - {uid};
      ok := true;
    }
  }

  /** new PlayerDataFileStoreListener(plg, name): with no "userdatadb.db"
      key the constructor's reloadNotify() dereferences null and no listener
      comes out; otherwise a new listener with empty tables whose store is
      built exactly when the kind is known and the database connects. */
  method NewListener(cfg: DbSettings, connects: bool) returns (l: Option<Listener>)
    ensures l.None? <==> cfg.db.None?
    ensures l.Some? ==>
              && fresh(l.value) && l.value.Valid()
              && l.value.workTable == map[] && l.value.effects == []
              && l.value.nextWorker == 0 && l.value.cancelled == {}
              && (l.value.store.Some? <==>
                    (Lower(cfg.db.value) == "sqlite" || Lower(cfg.db.value) == "mysql") && connects)
              && (l.value.store.Some? ==>
                    l.value.settings == cfg
                    && l.value.store.value
                       == Store(if Lower(cfg.db.value) == "sqlite" then SqliteStore else MySqlStore, cfg))
              && (l.value.store.None? ==> l.value.settings == NoSettings)
  {
    if cfg.db.None? {
      return None;
    }
    var x := new Listener(cfg, connects);
    l := Some(x);
  }
}
