/** Login sessions over histories in which any store may fail or be cut short. */
module SessionFaults {
  import opened Decimal
  import opened Sessions
  import opened SessionRuns
  import opened SessionStore

  // ---------- the file after failed stores ----------

  /** The first k characters of a file some boot up to step n stored. */
  predicate CutBy(h: History, n: nat, file: string, boot: string, es: seq<Session>, k: nat)
    requires n <= |h.events|
  {
    && k <= |Stored(boot, es)| && file == Stored(boot, es)[..k] && ValidBoot(boot)
    && GoodEntries(es) && |es| <= MAX_SESSIONS
    && exists m :: 0 <= m <= n && BootAt(h, m) == boot
  }

  ghost predicate CutFile(h: History, n: nat, file: string)
    requires n <= |h.events|
  {
    file == "" || exists boot, es, k :: CutBy(h, n, file, boot, es, k)
  }

  /** A cut file is never too large, and the lines it lists are good and unexpired. */
  lemma CutFileFacts(h: History, n: nat)
    requires GoodHistory(h) && n <= |h.events| && CutFile(h, n, FileAt(h, n))
    ensures |FileAt(h, n)| <= MAX_SESSION_FILE && GoodEntries(Listed(WorldAt(h, n)))
    ensures forall e :: e in Listed(WorldAt(h, n)) ==> e.expiry > NowAt(h, n)
  {
    hide Loaded, Stored, GoodEntries, ValidBoot, Unexpired, WholeEntries;
    var file := FileAt(h, n);
    NoEntries(NowAt(h, n));
    if file == "" {
      EmptyFile(BootAt(h, n), NowAt(h, n));
    } else {
      var boot, es, k :| CutBy(h, n, file, boot, es, k);
      StoredFits(boot, es);
      if boot == BootAt(h, n) {
        TornFile(boot, es, k, NowAt(h, n));
        PrefixGood(es, WholeEntries(boot, es, k));
        SublistGood(es[..WholeEntries(boot, es, k)], NowAt(h, n), "");
      } else {
        OtherBoot(BootAt(h, n), boot, es, k, NowAt(h, n));
      }
    }
  }

  lemma PrefixGood(es: seq<Session>, m: nat)
    requires GoodEntries(es) && m <= |es|
    ensures GoodEntries(es[..m])
  {
  }

  /** Time and reboots only shorten what a file lists. */
  lemma SameFile(h: History, n: nat)
    requires GoodHistory(h) && n < |h.events| && CutFile(h, n, FileAt(h, n)) && FileAt(h, n + 1) == FileAt(h, n)
    ensures CutFile(h, n + 1, FileAt(h, n + 1))
    ensures forall e :: e in Listed(WorldAt(h, n + 1)) ==> e in Listed(WorldAt(h, n))
    ensures h.events[n].Reboot? ==> Listed(WorldAt(h, n + 1)) == []
    ensures !h.events[n].Reboot? && !h.events[n].Tick? ==> Listed(WorldAt(h, n + 1)) == Listed(WorldAt(h, n))
  {
    hide Loaded, Stored, GoodEntries, ValidBoot, Unexpired, WholeEntries;
    var file := FileAt(h, n);
    if file == "" {
      EmptyFile(BootAt(h, n), NowAt(h, n));
      EmptyFile(BootAt(h, n + 1), NowAt(h, n + 1));
    } else {
      var boot, es, k :| CutBy(h, n, file, boot, es, k);
      assert CutBy(h, n + 1, file, boot, es, k);
      if boot == BootAt(h, n + 1) && !h.events[n].Reboot? {
        var whole := es[..WholeEntries(boot, es, k)];
        TornFile(boot, es, k, NowAt(h, n));
        TornFile(boot, es, k, NowAt(h, n + 1));
        UnexpiredTwice(whole, NowAt(h, n), NowAt(h, n + 1));
        UnexpiredSubset(Unexpired(whole, NowAt(h, n)), NowAt(h, n + 1));
      } else {
        OtherBoot(BootAt(h, n + 1), boot, es, k, NowAt(h, n + 1));
        if boot != BootAt(h, n) { OtherBoot(BootAt(h, n), boot, es, k, NowAt(h, n)); }
      }
    }
  }

  /** What is on the list after a store: the old entries if the file was not touched, or those of the new ones whose
      lines were written whole. */
  function Survivors(boot: string, before: seq<Session>, es: seq<Session>, store: Store): seq<Session>
  {
    match store
    case Whole => es
    case Untouched => before
    case Torn(k) => if k < |Stored(boot, es)| then es[..WholeEntries(boot, es, k)] else es
  }

  /** A store of unexpired entries that succeeds or is cut leaves exactly those. */
  lemma StoredSurvivors(h: History, n: nat, es: seq<Session>, store: Store)
    requires GoodHistory(h) && n < |h.events| && !h.events[n].Reboot? && !h.events[n].Tick?
    requires GoodEntries(es) && |es| <= MAX_SESSIONS && forall e :: e in es ==> e.expiry > NowAt(h, n)
    requires !store.Untouched? && FileAt(h, n + 1) == Written(FileAt(h, n), Stored(BootAt(h, n), es), store)
    ensures CutFile(h, n + 1, FileAt(h, n + 1))
    ensures Listed(WorldAt(h, n + 1)) == Survivors(BootAt(h, n), Listed(WorldAt(h, n)), es, store)
  {
    hide Loaded, Stored, GoodEntries, ValidBoot, Unexpired, WholeEntries, FileAt;
    var boot, text := BootAt(h, n), Stored(BootAt(h, n), es);
    var k := if store.Torn? && store.written < |text| then store.written else |text|;
    assert text[..|text|] == text;
    assert ValidBoot(boot) by { BootIsValid(h, n); }
    assert BootAt(h, n + 1) == boot && NowAt(h, n + 1) == NowAt(h, n);
    assert CutBy(h, n + 1, FileAt(h, n + 1), boot, es, k);
    TornFile(boot, es, k, NowAt(h, n));
    var m := WholeEntries(boot, es, k);
    if k == |text| { AllWhole(boot, es); assert es[..|es|] == es; }
    assert forall e :: e in es[..m] ==> e in es;
    NoneExpired(es[..m], NowAt(h, n));
  }

  lemma BootIsValid(h: History, n: nat)
    requires GoodHistory(h) && n <= |h.events|
    ensures ValidBoot(BootAt(h, n))
  {
  }

  // ---------- one event ----------

  /** What the list should be after this event if its store succeeds. */
  function Intended(h: History, n: nat): seq<Session>
    requires n < |h.events|
  {
    match h.events[n]
    case Login(token, _) => Pushed(Listed(WorldAt(h, n)), token, NowAt(h, n) + SESSION_LIFETIME)
    case Logout(token, _) => Without(Listed(WorldAt(h, n)), token)
    case _ => Listed(WorldAt(h, n))
  }

  /** The list after this event, from the list before it. */
  function Next(h: History, n: nat, list: seq<Session>): seq<Session>
    requires n < |h.events|
  {
    match h.events[n]
    case Tick(_) => Unexpired(list, NowAt(h, n + 1))
    case Reboot(_, _) => []
    case Login(token, store) =>
      Survivors(BootAt(h, n), list, Pushed(list, token, NowAt(h, n) + SESSION_LIFETIME), store)
    case Logout(token, store) =>
      if |Without(list, token)| == |list| then list else Survivors(BootAt(h, n), list, Without(list, token), store)
  }

  /** One login or logout. */
  lemma StoreStep(h: History, n: nat)
    requires GoodHistory(h) && n < |h.events| && (h.events[n].Login? || h.events[n].Logout?)
    requires CutFile(h, n, FileAt(h, n))
    ensures CutFile(h, n + 1, FileAt(h, n + 1))
    ensures Listed(WorldAt(h, n + 1)) == Next(h, n, Listed(WorldAt(h, n)))
  {
    hide Loaded, Stored, GoodEntries, ValidToken, CutFile, GoodHistory, Without, GoodEntry, WholeEntries;
    CutFileFacts(h, n);
    var es := Listed(WorldAt(h, n));
    match h.events[n]
    case Login(token, store) =>
      if store.Untouched? {
        SameFile(h, n);
      } else {
        PushedGood(h, n, es, token);
        StoredSurvivors(h, n, Pushed(es, token, NowAt(h, n) + SESSION_LIFETIME), store);
      }
    case Logout(token, store) =>
      WithoutAll(es, token);
      SublistGood(es, 0, token);
      if !ValidToken(token) { NotListed(es, token); }
      if !ValidToken(token) || |Without(es, token)| == |es| || store.Untouched? {
        SameFile(h, n);
      } else {
        StoredSurvivors(h, n, Without(es, token), store);
      }
  }

  /** A store leaves the list as it was or a prefix of what it intended, all of it if it succeeded. */
  lemma StoreLeavesPrefix(h: History, n: nat) returns (m: nat)
    requires GoodHistory(h) && n < |h.events| && (h.events[n].Login? || h.events[n].Logout?)
    requires CutFile(h, n, FileAt(h, n))
    ensures CutFile(h, n + 1, FileAt(h, n + 1))
    ensures var list := Listed(WorldAt(h, n + 1));
            || (list == Listed(WorldAt(h, n)) && (h.events[n].store.Whole? ==> list == Intended(h, n)))
            || (m <= |Intended(h, n)| && list == Intended(h, n)[..m]
                && (h.events[n].store.Whole? ==> m == |Intended(h, n)|))
  {
    hide Loaded, Stored, CutFile, GoodHistory, Without, WholeEntries, WorldAt;
    StoreStep(h, n);
    var intended, store, boot := Intended(h, n), h.events[n].store, BootAt(h, n);
    m := if store.Torn? && store.written < |Stored(boot, intended)| then WholeEntries(boot, intended, store.written)
         else |intended|;
    assert intended[..|intended|] == intended;
    if h.events[n].Logout? { WithoutAll(Listed(WorldAt(h, n)), h.events[n].token); }
  }

  lemma PushedGood(h: History, n: nat, es: seq<Session>, token: string)
    requires GoodHistory(h) && n < |h.events| && h.events[n].Login? && h.events[n].token == token
    requires GoodEntries(es) && |es| <= MAX_SESSIONS && forall e :: e in es ==> e.expiry > NowAt(h, n)
    ensures var p := Pushed(es, token, NowAt(h, n) + SESSION_LIFETIME);
            GoodEntries(p) && |p| <= MAX_SESSIONS && forall e :: e in p ==> e.expiry > NowAt(h, n)
  {
    hide ValidToken;
  }

  /** However stores fail, no entry appears except the one of a login, and none survives a reboot or its logout if
      that reported success. */
  lemma NothingAppears(h: History, n: nat, e: Session)
    requires GoodHistory(h) && n < |h.events| && CutFile(h, n, FileAt(h, n)) && e in Listed(WorldAt(h, n + 1))
    ensures !h.events[n].Reboot?
    ensures e in Listed(WorldAt(h, n)) || (h.events[n].Login? && e == LoginEntry(h, n))
    ensures LogsOut(h.events[n], e.token) ==> !LogoutSucceeds(WorldAt(h, n), e.token, h.events[n].store)
  {
    hide Loaded, Stored, CutFile, GoodHistory, GoodEntries, Without;
    match h.events[n]
    case Tick(_) => SameFile(h, n);
    case Reboot(_, _) => SameFile(h, n);
    case Login(token, _) =>
      var m := StoreLeavesPrefix(h, n);
      PushedMembers(Listed(WorldAt(h, n)), token, NowAt(h, n) + SESSION_LIFETIME, m, e);
    case Logout(token, store) =>
      var m := StoreLeavesPrefix(h, n);
      WithoutAll(Listed(WorldAt(h, n)), token);
      if token == e.token && LogoutSucceeds(WorldAt(h, n), token, store) { LogoutShown(h, n, e); }
  }

  lemma PushedMembers(es: seq<Session>, token: string, expiry: nat, m: nat, e: Session)
    ensures var p := Pushed(es, token, expiry);
            m <= |p| && e in p[..m] ==> e in es || e == Session(token, expiry)
  {
  }

  lemma LogoutShown(h: History, n: nat, e: Session)
    requires GoodHistory(h) && n < |h.events| && CutFile(h, n, FileAt(h, n)) && LogsOut(h.events[n], e.token)
    requires LogoutSucceeds(WorldAt(h, n), e.token, h.events[n].store)
    ensures e !in Listed(WorldAt(h, n + 1))
  {
    hide Loaded, Stored, GoodEntries, CutFile, GoodHistory, ValidToken, ValidBoot, LogoutSucceeds, AfterLogout;
    BootIsValid(h, n);
    var m := StoreLeavesPrefix(h, n);
    CutFileFacts(h, n + 1);
    TokenGone(WorldAt(h, n), e.token, h.events[n].store);
    assert WorldAt(h, n + 1) == WorldAt(h, n).(file := AfterLogout(WorldAt(h, n), e.token, h.events[n].store));
    if e in Listed(WorldAt(h, n + 1)) { GoodToken(Listed(WorldAt(h, n + 1)), e); }
  }

  lemma GoodToken(es: seq<Session>, e: Session)
    requires GoodEntries(es) && e in es
    ensures ValidToken(e.token)
  {
  }

  // ---------- every history ----------

  lemma {:induction false} AlwaysCut(h: History, n: nat)
    requires GoodHistory(h) && n <= |h.events|
    ensures CutFile(h, n, FileAt(h, n))
  {
    hide Loaded, Stored, CutFile, GoodHistory;
    if n == 0 {
      assert CutFile(h, 0, "") by { NoFile(h); }
    } else {
      AlwaysCut(h, n - 1);
      if h.events[n - 1].Login? || h.events[n - 1].Logout? {
        StoreStep(h, n - 1);
      } else {
        SameFile(h, n - 1);
      }
    }
  }

  lemma NoFile(h: History)
    ensures CutFile(h, 0, "")
  {
  }

  /** The list, told without the file: every event makes the next list of the one before. */
  function ListAt(h: History, n: nat): seq<Session>
    requires n <= |h.events|
  {
    if n == 0 then [] else Next(h, n - 1, ListAt(h, n - 1))
  }

  /** Whatever stores fail or are cut, the file lists exactly that. */
  lemma {:induction false} FileIsList(h: History, n: nat)
    requires GoodHistory(h) && n <= |h.events|
    ensures CutFile(h, n, FileAt(h, n)) && Listed(WorldAt(h, n)) == ListAt(h, n)
  {
    hide Loaded, Stored, CutFile, GoodHistory, Unexpired, Without, Pushed;
    AlwaysCut(h, n);
    if n == 0 {
      StartsEmpty(h);
    } else {
      FileIsList(h, n - 1);
      match h.events[n - 1]
      case Login(_, _) => StoreStep(h, n - 1);
      case Logout(_, _) => StoreStep(h, n - 1);
      case Tick(_) => TickStep(h, n - 1);
      case Reboot(_, _) => SameFile(h, n - 1);
    }
  }

  lemma TickStep(h: History, n: nat)
    requires GoodHistory(h) && n < |h.events| && h.events[n].Tick? && CutFile(h, n, FileAt(h, n))
    ensures Listed(WorldAt(h, n + 1)) == Unexpired(Listed(WorldAt(h, n)), NowAt(h, n + 1))
  {
    hide Loaded, Stored, GoodEntries, ValidBoot, Unexpired, WholeEntries;
    var file := FileAt(h, n);
    NoEntries(NowAt(h, n + 1));
    if file == "" {
      EmptyFile(BootAt(h, n), NowAt(h, n));
      EmptyFile(BootAt(h, n + 1), NowAt(h, n + 1));
    } else {
      var boot, es, k :| CutBy(h, n, file, boot, es, k);
      if boot == BootAt(h, n) {
        TornFile(boot, es, k, NowAt(h, n));
        TornFile(boot, es, k, NowAt(h, n + 1));
        UnexpiredTwice(es[..WholeEntries(boot, es, k)], NowAt(h, n), NowAt(h, n + 1));
      } else {
        OtherBoot(BootAt(h, n + 1), boot, es, k, NowAt(h, n + 1));
        OtherBoot(BootAt(h, n), boot, es, k, NowAt(h, n));
      }
    }
  }

  /** So a token is accepted exactly if that list has it. */
  lemma AcceptedIfListed(h: History, n: nat, token: string)
    requires GoodHistory(h) && n <= |h.events|
    ensures Accepts(WorldAt(h, n), token) <==> exists e :: e in ListAt(h, n) && e.token == token
  {
    hide Loaded, Stored, CutFile, GoodHistory, GoodEntries, ValidToken, ListAt;
    FileIsList(h, n);
    CutFileFacts(h, n);
    if e :| e in ListAt(h, n) && e.token == token { GoodToken(ListAt(h, n), e); }
  }

  /** A login lost: the second login's store is cut before its first entry line is whole, and with its own entry the
      first one is gone, although the first login is live. */
  lemma LoginLost(boot: string, now: nat, first: string, second: string) returns (h: History)
    requires ValidBoot(boot) && now + SESSION_LIFETIME < ULONG_MODULUS
    requires ValidToken(first) && ValidToken(second) && first != second
    ensures GoodHistory(h) && |h.events| == 2 && LiveAt(h, 2, 0)
    ensures Accepts(WorldAt(h, 1), first) && !Accepts(WorldAt(h, 2), first)
  {
    hide ValidBoot, ValidToken, Accepts, WorldAt, LiveAt, Stored, WholeEntries;
    h := History(boot, now, [Login(first, Whole), Login(second, Torn(0))]);
    assert GoodHistory(h) by { TwoLogins(h); }
    AcceptedIfListed(h, 1, first);
    AcceptedIfListed(h, 2, first);
    assert ListAt(h, 0) == [];
    assert ListAt(h, 1) == [Session(first, now + SESSION_LIFETIME)];
    assert ListAt(h, 1)[0].token == first && ListAt(h, 1)[0] in ListAt(h, 1);
    NothingWritten(boot, Pushed(ListAt(h, 1), second, now + SESSION_LIFETIME));
    assert ListAt(h, 2) == [];
    FirstLives(h);
  }

  lemma TwoLogins(h: History)
    requires |h.events| == 2 && h.events[0].Login? && h.events[1].Login? && h.events[0].token != h.events[1].token
    requires ValidToken(h.events[0].token) && ValidToken(h.events[1].token)
    requires ValidBoot(h.boot) && h.now + SESSION_LIFETIME < ULONG_MODULUS
    ensures GoodHistory(h) && forall n :: 0 <= n <= 2 ==> BootAt(h, n) == h.boot && NowAt(h, n) == h.now
  {
    hide ValidToken, ValidBoot;
    assert h.events[0].Login? && h.events[1].Login?;
    assert BootAt(h, 0) == h.boot && BootAt(h, 1) == h.boot && BootAt(h, 2) == h.boot;
    assert NowAt(h, 0) == h.now && NowAt(h, 1) == NowAt(h, 0);
    assert NowAt(h, 2) == NowAt(h, 1);
  }

  lemma NothingWritten(boot: string, es: seq<Session>)
    ensures |Stored(boot, es)| > 0 && WholeEntries(boot, es, 0) == 0
  {
  }

  lemma FirstLives(h: History)
    requires |h.events| == 2 && h.events[0].Login? && h.events[1].Login? && NowAt(h, 2) == NowAt(h, 0)
    ensures LiveAt(h, 2, 0)
  {
    assert |LiveList(h, 1, 1)| <= 1 by { assert LiveList(h, 1, 0) == []; }
    assert !Evicts(h, 1, 0);
  }

  /** From login i to step n the entry was on the list all the time, with no reboot and no successful logout. */
  ghost predicate OnListSince(h: History, n: nat, e: Session, i: nat)
    requires n <= |h.events|
  {
    && i < n && h.events[i].Login? && e == LoginEntry(h, i)
    && (forall j :: i < j <= n ==> e in Listed(WorldAt(h, j)))
    && (forall j :: i < j < n ==>
          !h.events[j].Reboot?
          && !(LogsOut(h.events[j], e.token) && LogoutSucceeds(WorldAt(h, j), e.token, h.events[j].store)))
  }

  lemma {:induction false} ListedSince(h: History, n: nat, e: Session) returns (i: nat)
    requires GoodHistory(h) && n <= |h.events| && e in Listed(WorldAt(h, n))
    ensures OnListSince(h, n, e, i)
  {
    hide Loaded, Stored, CutFile, GoodHistory, LogoutSucceeds, WorldAt;
    StartsEmpty(h);
    i := 0;
    if n > 0 {
      AlwaysCut(h, n - 1);
      NothingAppears(h, n - 1, e);
      if e in Listed(WorldAt(h, n - 1)) {
        i := ListedSince(h, n - 1, e);
      } else {
        i := n - 1;
      }
    }
  }

  lemma StartsEmpty(h: History)
    ensures Listed(WorldAt(h, 0)) == []
  {
    EmptyFile(h.boot, h.now);
  }

  /** Whatever stores fail, an accepted token comes from a login of this boot that has not expired, has been on the list
      ever since, and was not logged out with success. */
  lemma AcceptedOnlyIf(h: History, n: nat, token: string) returns (i: nat)
    requires GoodHistory(h) && n <= |h.events| && Accepts(WorldAt(h, n), token)
    ensures i < n && h.events[i].Login? && h.events[i].token == token
    ensures OnListSince(h, n, LoginEntry(h, i), i) && NowAt(h, n) < NowAt(h, i) + SESSION_LIFETIME
    ensures forall j :: i < j <= n ==> Accepts(WorldAt(h, j), token)
  {
    hide Loaded, Stored, CutFile, GoodHistory, LogoutSucceeds, GoodEntries, ValidToken;
    var e :| e in Listed(WorldAt(h, n)) && e.token == token;
    i := ListedSince(h, n, e);
    AlwaysCut(h, n);
    CutFileFacts(h, n);
    forall j | i < j <= n ensures Accepts(WorldAt(h, j), token) {
      AlwaysCut(h, j);
      CutFileFacts(h, j);
    }
  }

  /** So a token is never accepted again once it was not, unless a login issues it. */
  lemma NeverBack(h: History, j: nat, n: nat, token: string)
    requires GoodHistory(h) && j <= n <= |h.events| && !Accepts(WorldAt(h, j), token)
    requires forall i :: j <= i < n ==> !(h.events[i].Login? && h.events[i].token == token)
    ensures !Accepts(WorldAt(h, n), token)
  {
    hide WorldAt, GoodHistory, Accepts, OnListSince;
    if Accepts(WorldAt(h, n), token) {
      var i := AcceptedOnlyIf(h, n, token);
    }
  }

  /** A logout that reports success is final. */
  lemma DestroyedForGood(h: History, j: nat, n: nat, token: string)
    requires GoodHistory(h) && j < n <= |h.events| && LogsOut(h.events[j], token)
    requires LogoutSucceeds(WorldAt(h, j), token, h.events[j].store)
    requires exists i :: 0 <= i <= j && h.events[i].Login? && h.events[i].token == token
    ensures !Accepts(WorldAt(h, n), token)
  {
    hide WorldAt, Accepts, LogoutSucceeds, ValidToken, ValidBoot, Listed;
    if Accepts(WorldAt(h, n), token) {
      var k := AcceptedOnlyIf(h, n, token);
    }
  }
}
