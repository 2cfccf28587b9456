/** Login sessions over whole histories: logins, logouts, the clock and reboots. */
module SessionRuns {
  import opened Decimal
  import opened Sessions

  // ---------- the operations on the file ----------

  function Without(es: seq<Session>, token: string): (r: seq<Session>)
    ensures |r| <= |es|
  {
    if es == [] then [] else (if es[0].token != token then [es[0]] else []) + Without(es[1..], token)
  }

  /** The list after a login: the oldest entry makes room when it is full. */
  function Pushed(es: seq<Session>, token: string, expiry: nat): seq<Session>
  {
    (if |es| == MAX_SESSIONS then es[1..] else es) + [Session(token, expiry)]
  }

  /** Boot identity, monotonic clock and the session file. */
  datatype World = World(boot: string, now: nat, file: string)

  function Listed(w: World): seq<Session> { Loaded(w.file, w.boot, w.now) }

  /** create_session() */
  function AfterLogin(w: World, token: string, store: Store): string
  {
    if |w.file| > MAX_SESSION_FILE then w.file
    else Written(w.file, Stored(w.boot, Pushed(Listed(w), token, w.now + SESSION_LIFETIME)), store)
  }

  /** destroy_session() */
  function AfterLogout(w: World, token: string, store: Store): string
  {
    if !ValidToken(token) || |w.file| > MAX_SESSION_FILE then w.file
    else
      var kept := Without(Listed(w), token);
      if |kept| == |Listed(w)| then w.file else Written(w.file, Stored(w.boot, kept), store)
  }

  /** destroy_session() returns true. */
  predicate LogoutSucceeds(w: World, token: string, store: Store)
  {
    !ValidToken(token) || (|w.file| <= MAX_SESSION_FILE && (|Without(Listed(w), token)| == |Listed(w)| || store.Whole?))
  }

  /** session_valid() */
  predicate Accepts(w: World, token: string)
  {
    ValidToken(token) && |w.file| <= MAX_SESSION_FILE && exists e :: e in Listed(w) && e.token == token
  }

  /** What a logout reports: success for a text that is no token, or when the file can be read and either nothing lists
      the token or the rewritten file was stored. */
  lemma LogoutReports(w: World, token: string, store: Store)
    ensures LogoutSucceeds(w, token, store) <==>
              !ValidToken(token)
              || (|w.file| <= 2048 && (store.Whole? || forall e :: e in Listed(w) ==> e.token != token))
  {
    KeptAll(Listed(w), token);
  }

  lemma {:induction false} KeptAll(es: seq<Session>, token: string)
    ensures |Without(es, token)| == |es| <==> forall e :: e in es ==> e.token != token
  {
    if es != [] {
      KeptAll(es[1..], token);
      assert es == [es[0]] + es[1..];
      assert es[0] in es;
    }
  }

  // ---------- histories ----------

  datatype Event =
    | Login(token: string, store: Store)
    | Logout(token: string, store: Store)
    | Tick(seconds: nat)
    | Reboot(boot: string, now: nat)

  /** What happened since the first boot, from an empty session file. */
  datatype History = History(boot: string, now: nat, events: seq<Event>)

  function BootAt(h: History, n: nat): string
    requires n <= |h.events|
  {
    if n == 0 then h.boot else
    match h.events[n - 1]
    case Reboot(boot, _) => boot
    case _ => BootAt(h, n - 1)
  }

  function NowAt(h: History, n: nat): nat
    requires n <= |h.events|
  {
    if n == 0 then h.now else
    match h.events[n - 1]
    case Reboot(_, now) => now
    case Tick(seconds) => NowAt(h, n - 1) + seconds
    case _ => NowAt(h, n - 1)
  }

  function FileAt(h: History, n: nat): string
    requires n <= |h.events|
    decreases n, 0
  {
    if n == 0 then "" else
    var w := WorldAt(h, n - 1);
    match h.events[n - 1]
    case Login(token, store) => AfterLogin(w, token, store)
    case Logout(token, store) => AfterLogout(w, token, store)
    case _ => w.file
  }

  function WorldAt(h: History, n: nat): World
    requires n <= |h.events|
    decreases n, 1
  {
    World(BootAt(h, n), NowAt(h, n), FileAt(h, n))
  }

  predicate SameLogin(a: Event, b: Event) { a.Login? && b.Login? && a.token == b.token }

  predicate LogsOut(e: Event, token: string) { e.Logout? && e.token == token }

  /** No store fails. */
  ghost predicate AllStored(h: History)
  {
    forall n :: 0 <= n < |h.events| && (h.events[n].Login? || h.events[n].Logout?) ==> h.events[n].store.Whole?
  }

  /** Tokens and boot identities are fresh; the clock stays inside 64 bits. */
  ghost predicate GoodHistory(h: History)
  {
    && (forall n :: 0 <= n <= |h.events| ==> ValidBoot(BootAt(h, n)) && NowAt(h, n) + SESSION_LIFETIME < ULONG_MODULUS)
    && (forall n :: 0 <= n < |h.events| && h.events[n].Login? ==> ValidToken(h.events[n].token))
    && (forall i, j :: 0 <= i < j < |h.events| ==> !SameLogin(h.events[i], h.events[j]))
    && (forall n, m :: 0 <= m <= n < |h.events| && h.events[n].Reboot? ==> BootAt(h, m) != h.events[n].boot)
  }

  // ---------- which logins should still count ----------

  /** Nothing between login i and step n ended it other than eviction. */
  predicate Undisturbed(h: History, i: nat, n: nat)
    requires i < n <= |h.events| && h.events[i].Login?
  {
    forall j :: i < j < n ==> !h.events[j].Reboot? && !LogsOut(h.events[j], h.events[i].token)
  }

  /** Login i still counts after n events: it was made this boot, it has not expired, its token was
      not destroyed, and no later login that found a full list evicted it. */
  predicate LiveAt(h: History, n: nat, i: nat)
    requires i < n <= |h.events|
    decreases n, 0
  {
    && h.events[i].Login?
    && Undisturbed(h, i, n)
    && NowAt(h, n) < NowAt(h, i) + SESSION_LIFETIME
    && forall j :: i < j < n && h.events[j].Login? ==> !Evicts(h, j, i)
  }

  /** Login j found sixteen live logins, the earliest of which was i. */
  predicate Evicts(h: History, j: nat, i: nat)
    requires i < j <= |h.events|
    decreases j, 3
  {
    && |LiveList(h, j, j)| == MAX_SESSIONS && LiveAt(h, j, i)
    && !SomeLive(h, j, i)
  }

  /** Some login before event m is live after n events. */
  predicate SomeLive(h: History, n: nat, m: nat)
    requires m <= n <= |h.events|
    decreases n, 1
  {
    exists k :: 0 <= k < m && LiveAt(h, n, k)
  }

  function LoginEntry(h: History, i: nat): Session
    requires i < |h.events| && h.events[i].Login?
  {
    Session(h.events[i].token, NowAt(h, i) + SESSION_LIFETIME)
  }

  /** The live logins among the first m events, in login order. */
  function LiveList(h: History, n: nat, m: nat): seq<Session>
    requires m <= n <= |h.events|
    decreases n, 2, m
  {
    if m == 0 then []
    else if LiveAt(h, n, m - 1) then LiveList(h, n, m - 1) + [LoginEntry(h, m - 1)]
    else LiveList(h, n, m - 1)
  }

  // ---------- small facts about the lists ----------

  lemma {:induction false} UnexpiredConcat(a: seq<Session>, b: seq<Session>, now: nat)
    ensures Unexpired(a + b, now) == Unexpired(a, now) + Unexpired(b, now)
  {
    if a == [] {
      assert a + b == b;
    } else {
      assert (a + b)[1..] == a[1..] + b;
      UnexpiredConcat(a[1..], b, now);
    }
  }

  lemma {:induction false} WithoutConcat(a: seq<Session>, b: seq<Session>, token: string)
    ensures Without(a + b, token) == Without(a, token) + Without(b, token)
  {
    if a == [] {
      assert a + b == b;
    } else {
      assert (a + b)[1..] == a[1..] + b;
      WithoutConcat(a[1..], b, token);
    }
  }

  lemma UnexpiredOne(e: Session, now: nat)
    ensures Unexpired([e], now) == if e.expiry > now then [e] else []
  {
    assert [e][1..] == [];
  }

  lemma WithoutOne(e: Session, token: string)
    ensures Without([e], token) == if e.token != token then [e] else []
  {
    assert [e][1..] == [];
  }

  /** Expiry is decided by the latest clock alone. */
  lemma {:induction false} UnexpiredTwice(es: seq<Session>, now: nat, later: nat)
    requires now <= later
    ensures Unexpired(Unexpired(es, now), later) == Unexpired(es, later)
  {
    if es != [] {
      UnexpiredTwice(es[1..], now, later);
      var rest := Unexpired(es[1..], now);
      assert ([es[0]] + rest)[1..] == rest && [] + rest == rest;
      assert [] + Unexpired(es[1..], later) == Unexpired(es[1..], later);
    }
  }

  lemma {:induction false} SublistGood(es: seq<Session>, now: nat, token: string)
    requires GoodEntries(es)
    ensures GoodEntries(Unexpired(es, now)) && GoodEntries(Without(es, token))
    ensures |Unexpired(es, now)| <= |es|
    ensures forall e :: e in Unexpired(es, now) ==> e.expiry > now
  {
    hide GoodEntry;
    if es != [] { SublistGood(es[1..], now, token); }
  }

  lemma {:induction false} NoneExpired(es: seq<Session>, now: nat)
    requires forall e :: e in es ==> e.expiry > now
    ensures Unexpired(es, now) == es
  {
    if es != [] {
      assert es[0] in es;
      NoneExpired(es[1..], now);
    }
  }

  lemma {:induction false} WithoutAll(es: seq<Session>, token: string)
    ensures forall e :: e in Without(es, token) ==> e in es
    ensures |Without(es, token)| == |es| ==> Without(es, token) == es
  {
    if es != [] { WithoutAll(es[1..], token); }
  }

  // ---------- how the live logins change ----------

  lemma {:induction false} LiveAfterTick(h: History, n: nat, m: nat)
    requires m <= n < |h.events| && h.events[n].Tick?
    ensures LiveList(h, n + 1, m) == Unexpired(LiveList(h, n, m), NowAt(h, n + 1))
  {
    if m > 0 {
      LiveAfterTick(h, n, m - 1);
      assert LiveAt(h, n + 1, m - 1) <==> LiveAt(h, n, m - 1) && NowAt(h, n + 1) < NowAt(h, m - 1) + SESSION_LIFETIME;
      if LiveAt(h, n, m - 1) {
        UnexpiredConcat(LiveList(h, n, m - 1), [LoginEntry(h, m - 1)], NowAt(h, n + 1));
        UnexpiredOne(LoginEntry(h, m - 1), NowAt(h, n + 1));
      }
    }
  }

  lemma {:induction false} LiveAfterLogout(h: History, n: nat, m: nat)
    requires m <= n < |h.events| && h.events[n].Logout?
    ensures LiveList(h, n + 1, m) == Without(LiveList(h, n, m), h.events[n].token)
  {
    if m > 0 {
      LiveAfterLogout(h, n, m - 1);
      if h.events[m - 1].Login? {
        assert LiveAt(h, n + 1, m - 1) <==> LiveAt(h, n, m - 1) && h.events[m - 1].token != h.events[n].token;
      }
      if LiveAt(h, n, m - 1) {
        WithoutConcat(LiveList(h, n, m - 1), [LoginEntry(h, m - 1)], h.events[n].token);
        WithoutOne(LoginEntry(h, m - 1), h.events[n].token);
      }
    }
  }

  lemma {:induction false} LiveAfterReboot(h: History, n: nat, m: nat)
    requires m <= n < |h.events| && h.events[n].Reboot?
    ensures LiveList(h, n + 1, m) == []
  {
    if m > 0 {
      LiveAfterReboot(h, n, m - 1);
      assert !LiveAt(h, n + 1, m - 1);
    }
  }

  /** A login drops the first live entry exactly when it found the list full. */
  lemma {:induction false} LiveAfterLogin(h: History, n: nat, m: nat)
    requires m <= n < |h.events| && h.events[n].Login?
    ensures LiveList(h, n + 1, m)
         == if |LiveList(h, n, n)| == MAX_SESSIONS && LiveList(h, n, m) != [] then LiveList(h, n, m)[1..]
            else LiveList(h, n, m)
  {
    if m > 0 {
      LiveAfterLogin(h, n, m - 1);
      var last := m - 1;
      FirstLive(h, n, last);
      assert LiveAt(h, n + 1, last) <==> LiveAt(h, n, last) && !Evicts(h, n, last);
      if LiveAt(h, n, last) {
        var before, e := LiveList(h, n, last), LoginEntry(h, last);
        EvictsFirst(h, n, last);
        assert LiveList(h, n, m) == before + [e];
        assert (before + [e])[1..] == if before == [] then [] else before[1..] + [e];
      }
    }
  }

  /** A live login is evicted exactly when the list is full and nothing before it is live. */
  lemma EvictsFirst(h: History, j: nat, i: nat)
    requires i < j <= |h.events| && LiveAt(h, j, i)
    ensures Evicts(h, j, i) <==> |LiveList(h, j, j)| == MAX_SESSIONS && LiveList(h, j, i) == []
  {
    FirstLive(h, j, i);
  }

  lemma {:induction false} FirstLive(h: History, n: nat, m: nat)
    requires m <= n <= |h.events|
    ensures LiveList(h, n, m) != [] <==> SomeLive(h, n, m)
  {
    if m > 0 { FirstLive(h, n, m - 1); }
  }

  // ---------- the file holds exactly the live logins ----------

  /** A file some boot up to step n wrote, or none yet. */
  predicate WrittenBy(h: History, n: nat, file: string, boot: string, es: seq<Session>)
    requires n <= |h.events|
  {
    && file == Stored(boot, es) && GoodEntries(es) && |es| <= MAX_SESSIONS
    && exists m :: 0 <= m <= n && BootAt(h, m) == boot
  }

  ghost predicate KnownFile(h: History, n: nat, file: string)
    requires n <= |h.events|
  {
    file == "" || exists boot, es :: WrittenBy(h, n, file, boot, es)
  }

  lemma EmptyFile(boot: string, now: nat)
    ensures Loaded("", boot, now) == []
  {
  }

  /** Between operations only the clock and the boot decide what a known file loads to. */
  lemma KnownFileLater(h: History, n: nat, file: string)
    requires GoodHistory(h) && n < |h.events| && KnownFile(h, n, file)
    ensures KnownFile(h, n + 1, file) && |file| <= MAX_SESSION_FILE
    ensures h.events[n].Reboot? ==> Loaded(file, BootAt(h, n + 1), NowAt(h, n + 1)) == []
    ensures !h.events[n].Reboot? ==>
              Loaded(file, BootAt(h, n + 1), NowAt(h, n + 1))
                == Unexpired(Loaded(file, BootAt(h, n), NowAt(h, n)), NowAt(h, n + 1))
    ensures GoodEntries(Loaded(file, BootAt(h, n), NowAt(h, n)))
    ensures forall e :: e in Loaded(file, BootAt(h, n), NowAt(h, n)) ==> e.expiry > NowAt(h, n)
  {
    hide Loaded, Stored, GoodEntries, ValidBoot, Unexpired;
    if file == "" {
      EmptyFile(BootAt(h, n), NowAt(h, n));
      EmptyFile(BootAt(h, n + 1), NowAt(h, n + 1));
      NoEntries(NowAt(h, n + 1));
    } else {
      var boot, es :| WrittenBy(h, n, file, boot, es);
      var m :| 0 <= m <= n && BootAt(h, m) == boot;
      assert WrittenBy(h, n + 1, file, boot, es);
      StoredFits(boot, es);
      assert file[..|file|] == file;
      SublistGood(es, NowAt(h, n), "");
      NoEntries(NowAt(h, n + 1));
      if BootAt(h, n) == boot {
        StoreLoad(boot, es, NowAt(h, n));
        if h.events[n].Reboot? {
          OtherBoot(BootAt(h, n + 1), boot, es, |file|, NowAt(h, n + 1));
        } else {
          StoreLoad(boot, es, NowAt(h, n + 1));
          UnexpiredTwice(es, NowAt(h, n), NowAt(h, n + 1));
        }
      } else {
        OtherBoot(BootAt(h, n), boot, es, |file|, NowAt(h, n));
        OtherBoot(BootAt(h, n + 1), boot, es, |file|, NowAt(h, n + 1));
      }
    }
  }

  lemma NoEntries(now: nat)
    ensures Unexpired([], now) == [] && GoodEntries([])
  {
  }

  /** What an operation stores is what the list holds afterwards. */
  lemma StoredList(h: History, n: nat, es: seq<Session>)
    requires GoodHistory(h) && n < |h.events| && !h.events[n].Reboot? && !h.events[n].Tick?
    requires GoodEntries(es) && |es| <= MAX_SESSIONS && forall e :: e in es ==> e.expiry > NowAt(h, n)
    ensures Loaded(Stored(BootAt(h, n), es), BootAt(h, n + 1), NowAt(h, n + 1)) == es
    ensures KnownFile(h, n + 1, Stored(BootAt(h, n), es))
  {
    hide Loaded, Stored, GoodEntries, ValidBoot;
    StoreLoad(BootAt(h, n), es, NowAt(h, n));
    NoneExpired(es, NowAt(h, n));
    assert WrittenBy(h, n + 1, Stored(BootAt(h, n), es), BootAt(h, n), es);
  }

  /** Over any history the file lists exactly the live logins, in login order. */
  lemma {:induction false} FileIsLive(h: History, n: nat)
    requires GoodHistory(h) && AllStored(h) && n <= |h.events|
    ensures KnownFile(h, n, FileAt(h, n)) && Listed(WorldAt(h, n)) == LiveList(h, n, n)
  {
    hide Loaded, Stored, GoodEntries, Unexpired, Without, LiveAt, KnownFile, LiveList, GoodHistory, AllStored;
    if n == 0 {
      EmptyFile(BootAt(h, 0), NowAt(h, 0));
      assert KnownFile(h, 0, "") && LiveList(h, 0, 0) == [] by { NothingYet(h); }
    } else {
      FileIsLive(h, n - 1);
      KnownFileLater(h, n - 1, FileAt(h, n - 1));
      LiveStep(h, n - 1);
      match h.events[n - 1]
      case Tick(_) =>
      case Reboot(_, _) =>
      case Login(_, _) => LoginStep(h, n - 1);
      case Logout(_, _) => LogoutStep(h, n - 1);
    }
  }

  lemma NothingYet(h: History)
    ensures KnownFile(h, 0, "") && LiveList(h, 0, 0) == []
  {
  }

  /** The live list after one more event. */
  lemma LiveStep(h: History, n: nat)
    requires GoodHistory(h) && n < |h.events|
    ensures LiveList(h, n + 1, n + 1)
         == match h.events[n]
            case Tick(_) => Unexpired(LiveList(h, n, n), NowAt(h, n + 1))
            case Reboot(_, _) => []
            case Logout(token, _) => Without(LiveList(h, n, n), token)
            case Login(token, _) => Pushed(LiveList(h, n, n), token, NowAt(h, n) + SESSION_LIFETIME)
  {
    hide Unexpired, Without;
    match h.events[n]
    case Tick(_) => LiveAfterTick(h, n, n);
    case Reboot(_, _) => LiveAfterReboot(h, n, n);
    case Logout(_, _) => LiveAfterLogout(h, n, n);
    case Login(_, _) => LiveAfterLogin(h, n, n);
  }

  lemma LoginStep(h: History, n: nat)
    requires GoodHistory(h) && AllStored(h) && n < |h.events| && h.events[n].Login?
    requires KnownFile(h, n, FileAt(h, n)) && Listed(WorldAt(h, n)) == LiveList(h, n, n)
    ensures KnownFile(h, n + 1, FileAt(h, n + 1))
    ensures Listed(WorldAt(h, n + 1)) == Pushed(LiveList(h, n, n), h.events[n].token, NowAt(h, n) + SESSION_LIFETIME)
  {
    hide Loaded, Stored, LiveList, KnownFile, ValidToken;
    KnownFileLater(h, n, FileAt(h, n));
    var es := Listed(WorldAt(h, n));
    StoredList(h, n, Pushed(es, h.events[n].token, NowAt(h, n) + SESSION_LIFETIME));
  }

  lemma LogoutStep(h: History, n: nat)
    requires GoodHistory(h) && AllStored(h) && n < |h.events| && h.events[n].Logout?
    requires KnownFile(h, n, FileAt(h, n)) && Listed(WorldAt(h, n)) == LiveList(h, n, n)
    ensures KnownFile(h, n + 1, FileAt(h, n + 1))
    ensures Listed(WorldAt(h, n + 1)) == Without(LiveList(h, n, n), h.events[n].token)
  {
    hide Loaded, Stored, LiveList, KnownFile, ValidToken, GoodHistory;
    KnownFileLater(h, n, FileAt(h, n));
    var es, token := Listed(WorldAt(h, n)), h.events[n].token;
    NoneExpired(es, NowAt(h, n));
    WithoutAll(es, token);
    SublistGood(es, 0, token);
    if !ValidToken(token) {
      NotListed(es, token);
    } else if |Without(es, token)| != |es| {
      StoredList(h, n, Without(es, token));
    }
  }

  lemma {:induction false} NotListed(es: seq<Session>, token: string)
    requires GoodEntries(es) && !ValidToken(token)
    ensures Without(es, token) == es
  {
    hide ValidToken;
    if es != [] {
      assert GoodEntry(es[0]);
      NotListed(es[1..], token);
    }
  }

  // ---------- the promises ----------

  lemma {:induction false} LiveTokens(h: History, n: nat, m: nat, token: string)
    requires m <= n <= |h.events|
    ensures (exists e :: e in LiveList(h, n, m) && e.token == token)
       <==> exists i :: 0 <= i < m && LiveAt(h, n, i) && h.events[i].token == token
  {
    hide Undisturbed, Evicts;
    if m > 0 {
      LiveTokens(h, n, m - 1, token);
      if LiveAt(h, n, m - 1) {
        var e := LoginEntry(h, m - 1);
        assert e in LiveList(h, n, m);
        if exists x :: x in LiveList(h, n, m - 1) && x.token == token {
          var x :| x in LiveList(h, n, m - 1) && x.token == token;
          assert x in LiveList(h, n, m);
        }
      }
    }
  }

  /** A token is accepted exactly when it comes from a login of this boot that has not expired,
      was never destroyed, and was never evicted by a login that found sixteen live ones. */
  lemma AcceptedExactly(h: History, n: nat, token: string)
    requires GoodHistory(h) && AllStored(h) && n <= |h.events|
    ensures Accepts(WorldAt(h, n), token) <==> exists i :: 0 <= i < n && LiveAt(h, n, i) && h.events[i].token == token
  {
    hide Loaded, Stored, ValidToken, LiveList, Undisturbed, Evicts, KnownFile;
    FileIsLive(h, n);
    LiveTokens(h, n, n, token);
    assert |FileAt(h, n)| <= MAX_SESSION_FILE by { KnownFits(h, n, FileAt(h, n)); }
  }

  lemma KnownFits(h: History, n: nat, file: string)
    requires GoodHistory(h) && n <= |h.events| && KnownFile(h, n, file)
    ensures |file| <= MAX_SESSION_FILE
  {
    hide Stored, GoodEntries, ValidBoot;
    if file != "" {
      var boot, es :| WrittenBy(h, n, file, boot, es);
      var m :| 0 <= m <= n && BootAt(h, m) == boot;
      StoredFits(boot, es);
    }
  }

  /** Within one boot the clock never goes back. */
  lemma {:induction false} ClockGrows(h: History, i: nat, j: nat)
    requires i <= j <= |h.events|
    requires forall k :: i <= k < j ==> !h.events[k].Reboot?
    ensures NowAt(h, i) <= NowAt(h, j)
  {
    if i < j { ClockGrows(h, i, j - 1); }
  }

  predicate SortedByExpiry(es: seq<Session>) { forall i, j :: 0 <= i < j < |es| ==> es[i].expiry <= es[j].expiry }

  /** The list is in login order, never longer than sixteen, and sorted by expiry. */
  lemma {:induction false} ListSorted(h: History, n: nat, m: nat)
    requires m <= n <= |h.events|
    ensures SortedByExpiry(LiveList(h, n, m))
    ensures forall e :: e in LiveList(h, n, m) ==>
              exists i :: 0 <= i < m && LiveAt(h, n, i) && e == LoginEntry(h, i)
  {
    hide Evicts;
    if m > 0 {
      ListSorted(h, n, m - 1);
      if LiveAt(h, n, m - 1) {
        forall e | e in LiveList(h, n, m - 1) ensures e.expiry <= LoginEntry(h, m - 1).expiry {
          var i :| 0 <= i < m - 1 && LiveAt(h, n, i) && e == LoginEntry(h, i);
          ClockGrows(h, i, m - 1);
        }
      }
    }
  }

  lemma {:induction false} ListBounded(h: History, n: nat)
    requires GoodHistory(h) && n <= |h.events|
    ensures |LiveList(h, n, n)| <= MAX_SESSIONS
  {
    hide LiveList, GoodHistory, Unexpired, Without;
    if n == 0 {
      assert LiveList(h, 0, 0) == [] by { NothingYet(h); }
    } else {
      ListBounded(h, n - 1);
      LiveStep(h, n - 1);
      ShorterUnexpired(LiveList(h, n - 1, n - 1), NowAt(h, n));
    }
  }

  lemma {:induction false} ShorterUnexpired(es: seq<Session>, now: nat)
    ensures |Unexpired(es, now)| <= |es|
  {
    if es != [] { ShorterUnexpired(es[1..], now); }
  }

  /** An eviction always drops the live login that expires first. */
  lemma EvictsEarliest(h: History, j: nat, i: nat, k: nat)
    requires i < j <= |h.events| && k < j && Evicts(h, j, i) && LiveAt(h, j, k)
    ensures h.events[i].Login? && h.events[k].Login? && LoginEntry(h, i).expiry <= LoginEntry(h, k).expiry
  {
    if i < k { ClockGrows(h, i, k); }
  }
}
