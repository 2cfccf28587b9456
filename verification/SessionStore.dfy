/** The session operations as the web workers run them, on the shared file. */
module SessionStore {
  import opened Ini
  import opened Sessions
  import opened SessionRuns

  /** load_sessions(): the entries of the file into a buffer of sixteen. */
  method LoadSessions(contents: string, boot: string, now: nat, entries: array<Session>) returns (ok: bool, count: nat)
    requires entries.Length == MAX_SESSIONS
    modifies entries
    ensures ok == (|contents| <= MAX_SESSION_FILE)
    ensures count <= entries.Length && entries[..count] == if ok then Loaded(contents, boot, now) else []
  {
    hide ReadEntries;
    ok, count := false, 0;
    if |contents| > MAX_SESSION_FILE { return; }
    ok := true;
    var next := Find(contents, '\n');
    if next == |contents| || contents[..next] != BootLine(boot) { return; }
    count := FillEntries(contents[next + 1..], now, entries);
  }

  method FillEntries(text: string, now: nat, entries: array<Session>) returns (count: nat)
    modifies entries
    ensures count <= entries.Length && entries[..count] == ReadEntries(text, now, entries.Length)
  {
    hide ReadEntry, ReadEntries, Find;
    var rest := text;
    count := 0;
    while count < entries.Length
      invariant count <= entries.Length
      invariant ReadEntries(text, now, entries.Length) == entries[..count] + ReadEntries(rest, now,
                entries.Length - count)
      decreases |rest|
    {
      ReadStep(rest, now, entries.Length - count);
      var next := Find(rest, '\n');
      if next == |rest| { return; }
      var entry := ReadEntry(rest[..next], now);
      rest := rest[next + 1..];
      if entry.Some? {
        ghost var before, more := entries[..count], ReadEntries(rest, now, entries.Length - count - 1);
        entries[count] := entry.value;
        count := count + 1;
        assert entries[..count] == before + [entry.value];
        assert before + ([entry.value] + more) == entries[..count] + more;
      }
    }
    assert ReadEntries(rest, now, 0) == [];
  }

  lemma ReadStep(text: string, now: nat, capacity: nat)
    requires capacity > 0
    ensures var n := Find(text, '\n');
            ReadEntries(text, now, capacity)
              == if n == |text| then []
                 else match ReadEntry(text[..n], now)
                      case None => ReadEntries(text[n + 1..], now, capacity)
                      case Some(e) => [e] + ReadEntries(text[n + 1..], now, capacity - 1)
  {
    hide ReadEntry, Find;
  }

  /** store_sessions(): the text that replaces the file, built line by line. */
  method StoreSessions(boot: string, entries: array<Session>, count: nat) returns (contents: string)
    requires count <= entries.Length
    ensures contents == Stored(boot, entries[..count])
  {
    contents := BootLine(boot) + "\n";
    ghost var es := entries[..count];
    assert es[0..] == es;
    for i := 0 to count
      invariant Stored(boot, es) == contents + EntryLines(es[i..])
    {
      assert es[i..][1..] == es[i + 1..];
      contents := contents + EntryLine(entries[i]);
    }
  }

  /** The new entry at the end, after the oldest has made room in a full array. */
  method Push(entries: array<Session>, count: nat, e: Session) returns (total: nat)
    requires count <= entries.Length == MAX_SESSIONS
    modifies entries
    ensures total <= entries.Length && entries[..total] == Pushed(old(entries[..count]), e.token, e.expiry)
  {
    total := count;
    ghost var es := entries[..count];
    if count == MAX_SESSIONS {
      forall i | 0 <= i < count - 1 { entries[i] := entries[i + 1]; }
      total := count - 1;
      assert entries[..total] == es[1..];
    }
    entries[total] := e;
    total := total + 1;
    assert entries[..total] == entries[..total - 1] + [e];
  }

  /** The session file. The caller holds its lock and knows the boot identity and the clock. */
  class SessionFile {
    var contents: string

    constructor ()
      ensures contents == ""
    {
      contents := "";
    }

    /** create_session(); `store` says what becomes of the write. */
    method Create(boot: string, now: nat, token: string, store: Store) returns (ok: bool)
      modifies this
      ensures contents == AfterLogin(World(boot, now, old(contents)), token, store)
      ensures ok == (old(|contents|) <= MAX_SESSION_FILE && store.Whole?)
    {
      hide Loaded, Stored, Pushed, Written;
      var entries := new Session[MAX_SESSIONS];
      var count;
      ok, count := LoadSessions(contents, boot, now, entries);
      if !ok { return; }
      count := Push(entries, count, Session(token, now + SESSION_LIFETIME));
      var text := StoreSessions(boot, entries, count);
      contents, ok := Written(contents, text, store), store.Whole?;
    }

    /** session_valid() */
    method Valid(boot: string, now: nat, token: string) returns (found: bool)
      ensures found == Accepts(World(boot, now, contents), token)
    {
      hide Loaded;
      if !ValidToken(token) { return false; }
      var entries := new Session[MAX_SESSIONS];
      var ok, count := LoadSessions(contents, boot, now, entries);
      found := false;
      for i := 0 to count
        invariant found <==> exists j :: 0 <= j < i && entries[j].token == token
      {
        if entries[i].token == token { found := true; }
      }
      ghost var es := entries[..count];
      assert forall j :: 0 <= j < count ==> es[j] == entries[j];
      assert forall j :: 0 <= j < count ==> es[j] in es;
    }

    /** destroy_session(): the file is rewritten only if something was removed, and success
        means the token is no longer accepted. */
    method Destroy(boot: string, now: nat, token: string, store: Store) returns (ok: bool)
      modifies this
      ensures contents == AfterLogout(World(boot, now, old(contents)), token, store)
      ensures ok == LogoutSucceeds(World(boot, now, old(contents)), token, store)
      ensures ok && ValidBoot(boot) ==> !Accepts(World(boot, now, contents), token)
    {
      hide Loaded, Stored, GoodEntries;
      if !ValidToken(token) { return true; }
      var entries := new Session[MAX_SESSIONS];
      var count;
      ok, count := LoadSessions(contents, boot, now, entries);
      if !ok { return; }
      ghost var es := entries[..count];
      var kept := KeepOthers(entries, count, token);
      if kept != count {
        var text := StoreSessions(boot, entries, kept);
        contents, ok := Written(contents, text, store), store.Whole?;
      }
      if ok && ValidBoot(boot) { TokenGone(World(boot, now, old(contents)), token, store); }
    }
  }

  /** The loop that closes the gaps over the destroyed token. */
  method KeepOthers(entries: array<Session>, count: nat, token: string) returns (kept: nat)
    requires count <= entries.Length
    modifies entries
    ensures kept <= count && entries[..kept] == Without(old(entries[..count]), token)
  {
    ghost var es := entries[..count];
    kept := 0;
    assert es[..0] == [];
    for i := 0 to count
      invariant 0 <= kept <= i
      invariant entries[..kept] == Without(es[..i], token)
      invariant forall j :: i <= j < count ==> entries[j] == es[j]
    {
      assert es[..i + 1] == es[..i] + [es[i]];
      WithoutConcat(es[..i], [es[i]], token);
      WithoutOne(es[i], token);
      ghost var before := entries[..kept];
      if entries[i].token != token {
        entries[kept] := entries[i];
        kept := kept + 1;
        assert entries[..kept] == before + [es[i]];
      }
    }
    assert es[..count] == es;
  }

  /** Everything load_sessions() returns is an entry store_sessions() can write. */
  lemma {:induction false} ReadGood(text: string, now: nat, capacity: nat)
    ensures GoodEntries(ReadEntries(text, now, capacity))
    decreases |text|
  {
    hide Find, ReadEntry, GoodEntry;
    var n := Find(text, '\n');
    if n != |text| && capacity > 0 {
      EntryIsGood(text[..n], now);
      ReadGood(text[n + 1..], now, capacity);
      ReadGood(text[n + 1..], now, capacity - 1);
    }
  }

  lemma EntryIsGood(line: string, now: nat)
    ensures ReadEntry(line, now).Some? ==> GoodEntry(ReadEntry(line, now).value)
  {
  }

  /** A logout that reports success leaves no accepted token. */
  lemma TokenGone(w: World, token: string, store: Store)
    requires ValidBoot(w.boot) && LogoutSucceeds(w, token, store)
    ensures !Accepts(w.(file := AfterLogout(w, token, store)), token)
  {
    hide Stored, GoodEntries, ReadEntries, ValidToken, ValidBoot;
    var es := Listed(w);
    ReadGood(w.file[if Find(w.file, '\n') == |w.file| then |w.file| else Find(w.file, '\n') + 1..], w.now,
          MAX_SESSIONS);
    NoEntries(w.now);
    WithoutAll(es, token);
    Gone(es, token);
    SublistGood(es, w.now, token);
    ListedAgain(w.boot, w.now, Without(es, token));
  }

  lemma {:induction false} Gone(es: seq<Session>, token: string)
    ensures forall e :: e in Without(es, token) ==> e.token != token
  {
    if es != [] { Gone(es[1..], token); }
  }

  lemma ListedAgain(boot: string, now: nat, es: seq<Session>)
    requires ValidBoot(boot) && GoodEntries(es) && |es| <= MAX_SESSIONS
    ensures forall e :: e in Loaded(Stored(boot, es), boot, now) ==> e in es
  {
    hide Loaded, Stored, GoodEntries;
    StoreLoad(boot, es, now);
    UnexpiredSubset(es, now);
  }

  lemma {:induction false} UnexpiredSubset(es: seq<Session>, now: nat)
    ensures forall e :: e in Unexpired(es, now) ==> e in es
  {
    if es != [] { UnexpiredSubset(es[1..], now); }
  }
}
