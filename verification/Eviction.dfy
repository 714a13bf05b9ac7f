/** Removing a line from the device and rewriting its users (`SSDProxy::removeCacheline`, `modifyCacheline`;
    src/ssd_proxy.cpp:202-405). */
module Evictions {
  import opened Bits
  import opened Words
  import opened Cachelines
  import opened CachelineUpdates
  import opened CachelineLaws
  import opened PageManagers
  import opened Pages
  import opened Stores
  import opened EvictionPlans
  import opened PageOwnership
  import opened Devices

  /** A candidate for taking a block over, ordered by time stamp and id. */
  datatype ChooseInfo = ChooseInfo(timestamp: nat, cachelineId: Id) {
    predicate AtMost(rhs: ChooseInfo) {
      timestamp < rhs.timestamp || (timestamp == rhs.timestamp && cachelineId <= rhs.cachelineId)
    }
  }

  // ----- what the victim stores --------------------------------------------------------------

  ghost predicate StoredAt(line: Cacheline, fp: Fp, pos: nat) {
    exists i :: 0 <= i < |line.infos| && line.infos[i].kind == STORED && line.infos[i].compFp == fp &&
                line.infos[i].posIndex == pos
  }

  /** Where the victim stores its fingerprints; the fate of every fingerprint is, so far, to be gone. */
  method CollectStored(line: Cacheline, id: Id) returns (stored: map<Fp, nat>, moved: map<Fp, Id>)
    ensures forall fp: Fp :: fp in stored <==> HasStored(line.infos, fp)
    ensures forall fp: Fp | fp in stored :: StoredAt(line, fp, stored[fp])
    ensures moved.Keys == FpsOf(line) && forall fp | fp in moved :: moved[fp] == id
  {
    stored, moved := map[], map[];
    var i := 0;
    while i < |line.infos|
      invariant 0 <= i <= |line.infos|
      invariant forall fp: Fp :: fp in stored <==>
                  exists k :: 0 <= k < i && line.infos[k].kind == STORED && line.infos[k].compFp == fp
      invariant forall fp: Fp | fp in stored :: StoredAt(line, fp, stored[fp])
      invariant forall fp: Fp :: fp in moved <==> exists k :: 0 <= k < i && line.infos[k].compFp == fp
      invariant forall fp | fp in moved :: moved[fp] == id
    {
      var ch := line.infos[i];
      if ch.kind == STORED {
        stored := stored[ch.compFp := ch.posIndex];
        assert StoredAt(line, ch.compFp, ch.posIndex);
      }
      moved := moved[ch.compFp := id];
      i := i + 1;
    }
  }

  lemma {:induction false} StoredPosition(s: Store, n: nat, v: Id, fp: Fp, pos: nat)
    requires Inv(s, n) && v in s.lines && StoredAt(s.lines[v], fp, pos)
    ensures HasStored(s.lines[v].infos, fp) && pos < |s.lines[v].data|
    ensures s.lines[v].data[pos] == StoredBytes(s.lines[v], fp)
  {
    hide StoredBytes, Indexed, SlotsMatch, GroupsAgree;
    var line := s.lines[v];
    assert GoodLine(s, v, n);
    var i :| 0 <= i < |line.infos| && line.infos[i].kind == STORED && line.infos[i].compFp == fp &&
             line.infos[i].posIndex == pos;
    assert GoodInfo(line.infos[i], |line.data|);
    StoredBytesAt(line, i);
  }

  // ----- who uses it -------------------------------------------------------------------------

  /** `table` lists, for each fingerprint, the lines of `ids` that refer to line `v` for it. */
  ghost predicate TableFor(s: Store, v: Id, table: map<Fp, set<ChooseInfo>>, ids: set<Id>)
    requires s.lines.Keys == s.meta.Keys && ids <= s.lines.Keys
  {
    && (forall fp: Fp, u: Id | u in ids && RefersTo(s.lines[u], fp, v) ::
          fp in table && ChooseInfo(s.meta[u].timeStamp, u) in table[fp])
    && (forall fp, c | fp in table && c in table[fp] ::
          c.cachelineId in ids && RefersTo(s.lines[c.cachelineId], fp, v) &&
          c.timestamp == s.meta[c.cachelineId].timeStamp)
    && (forall fp | fp in table :: table[fp] != {})
  }

  /** The part of a line seen so far. */
  function UpTo(line: Cacheline, k: nat): Cacheline
    requires k <= |line.infos|
  {
    line.(infos := line.infos[..k])
  }

  method AddUser(line: Cacheline, u: Id, timestamp: nat, v: Id, stored: map<Fp, nat>, before: map<Fp, set<ChooseInfo>>,
                 ghost s: Store, ghost n: nat, ghost ids: set<Id>)
    returns (table: map<Fp, set<ChooseInfo>>)
    requires Inv(s, n) && v in s.lines && s.lines.Keys == s.meta.Keys && ids <= s.lines.Keys
    requires u in s.lines && u != v && line == s.lines[u] && timestamp == s.meta[u].timeStamp
    requires forall fp: Fp :: fp in stored <==> HasStored(s.lines[v].infos, fp)
    requires TableFor(s, v, before, ids)
    ensures TableFor(s, v, table, ids + {u})
  {
    hide Inv, RefersTo;
    table := before;
    var me := ChooseInfo(timestamp, u);
    var k := 0;
    forall fp: Fp ensures !RefersTo(UpTo(line, 0), fp, v) { NothingSeen(line, fp, v); }
    while k < |line.infos|
      invariant 0 <= k <= |line.infos|
      invariant forall fp: Fp, w: Id | w in ids && RefersTo(s.lines[w], fp, v) ::
                  fp in table && ChooseInfo(s.meta[w].timeStamp, w) in table[fp]
      invariant forall fp: Fp | RefersTo(UpTo(line, k), fp, v) :: fp in table && me in table[fp]
      invariant forall fp, c | fp in table && c in table[fp] ::
                  c.cachelineId in ids + {u} && RefersTo(s.lines[c.cachelineId], fp, v) &&
                  c.timestamp == s.meta[c.cachelineId].timeStamp
      invariant forall fp | fp in table :: table[fp] != {}
    {
      var ch := line.infos[k];
      forall fp: Fp ensures RefersTo(UpTo(line, k + 1), fp, v) ==>
                            RefersTo(UpTo(line, k), fp, v) || (ch.kind == REF && ch.external == v && ch.compFp == fp) {
        SeenOneMore(line, k, fp, v);
      }
      if ch.kind == REF && ch.external == v {
        RefSeen(s, n, v, u, k);
        assert ch.compFp in stored;
        table := table[ch.compFp := (if ch.compFp in table then table[ch.compFp] else {}) + {me}];
      }
      k := k + 1;
    }
    assert UpTo(line, k) == line;
  }

  lemma {:induction false} NothingSeen(line: Cacheline, fp: Fp, v: Id)
    ensures !RefersTo(UpTo(line, 0), fp, v)
  {
  }

  lemma {:induction false} SeenOneMore(line: Cacheline, k: nat, fp: Fp, v: Id)
    requires k < |line.infos|
    ensures RefersTo(UpTo(line, k + 1), fp, v) ==>
              RefersTo(UpTo(line, k), fp, v) ||
              (line.infos[k].kind == REF && line.infos[k].external == v && line.infos[k].compFp == fp)
  {
    var seen := UpTo(line, k + 1).infos;
    if i :| 0 <= i < |seen| && seen[i].kind == REF && seen[i].compFp == fp && seen[i].external == v {
      if i < k { assert UpTo(line, k).infos[i] == seen[i]; }
    }
  }

  /** What is referred to is stored: the assertion in the scan of the users never fails. */
  lemma {:induction false} RefSeen(s: Store, n: nat, v: Id, u: Id, k: nat)
    requires Inv(s, n) && v in s.lines && u in s.lines && u != v && k < |s.lines[u].infos|
    requires s.lines[u].infos[k].kind == REF && s.lines[u].infos[k].external == v
    ensures RefersTo(s.lines[u], s.lines[u].infos[k].compFp, v)
    ensures HasStored(s.lines[v].infos, s.lines[u].infos[k].compFp)
  {
    hide Inv;
    var fp := s.lines[u].infos[k].compFp;
    assert RefersTo(s.lines[u], fp, v);
    UserGroup(s, n, v, fp, u, k);
  }

  /** The state of the device while the store `s` is being worked on. */
  ghost predicate OnProxy(proxy: SSDProxy, meta: map<Id, IndexData>, lines: map<Id, Cacheline>)
    reads proxy.manager, proxy.device.buffer
  {
    && proxy.Valid() && meta.Keys <= lines.Keys
    && Shared(proxy.manager.Free(), meta, proxy.manager.size)
    && AllHeld(proxy.Disk(), proxy.PG, meta, lines)
  }

  /** All lines that refer to the victim, by fingerprint; the users are read in any order. */
  method BuildRefTable(proxy: SSDProxy, refs: map<Id, IndexData>, v: Id, stored: map<Fp, nat>, ghost s: Store,
                       ghost n: nat) returns (table: map<Fp, set<ChooseInfo>>)
    requires Inv(s, n) && v in s.lines && s.lines.Keys == s.meta.Keys && proxy.Valid() && proxy.blockCount == n
    requires forall u | u in refs :: u in s.lines && u != v && refs[u] == s.meta[u] &&
                                     Holds(proxy.Disk(), proxy.PG, refs[u].pages, s.lines[u])
    requires forall fp: Fp :: fp in stored <==> HasStored(s.lines[v].infos, fp)
    ensures TableFor(s, v, table, refs.Keys)
  {
    hide Inv, TableFor, Holds, PageCount;
    table := map[];
    EmptyTable(s, v);
    var pending := refs.Keys;
    assert refs.Keys - pending == {};
    while pending != {}
      invariant pending <= refs.Keys
      invariant TableFor(s, v, table, refs.Keys - pending)
      decreases pending
    {
      var u: Id :| u in pending;
      LineIsGood(s, n, u);
      var line := proxy.ReadStored(refs[u].pages, s.lines[u]);
      table := AddUser(line, u, refs[u].timeStamp, v, stored, table, s, n, refs.Keys - pending);
      assert refs.Keys - (pending - {u}) == refs.Keys - pending + {u};
      pending := pending - {u};
    }
    assert refs.Keys - pending == refs.Keys;
  }

  lemma {:induction false} EmptyTable(s: Store, v: Id)
    requires s.lines.Keys == s.meta.Keys
    ensures TableFor(s, v, map[], {})
  {
  }

  // ----- the commands ------------------------------------------------------------------------

  function CommandsOf(commands: map<Id, seq<ModifyCommand>>, u: Id): seq<ModifyCommand> {
    if u in commands then commands[u] else []
  }

  function AddCommand(commands: map<Id, seq<ModifyCommand>>, u: Id, c: ModifyCommand): map<Id, seq<ModifyCommand>> {
    commands[u := CommandsOf(commands, u) + [c]]
  }

  lemma {:induction false} PlanAdd(s: Store, v: Id, u: Id, commands: seq<ModifyCommand>, done: set<Fp>,
                                   c: ModifyCommand)
    requires s.lines.Keys == s.meta.Keys && v in s.lines
    requires PlanFor(s, v, u, commands, done) && c.fp !in done && GoodCommand(s, v, u, c)
    ensures PlanFor(s, v, u, commands + [c], done + {c.fp})
  {
    hide GoodCommand, Users;
    var more := commands + [c];
    forall fp: Fp | fp in done + {c.fp} && u in Users(s, v, fp) ensures Mentions(more, fp) {
      if fp == c.fp {
        assert more[|commands|].fp == fp;
      } else {
        var k :| 0 <= k < |commands| && commands[k].fp == fp;
        assert more[k].fp == fp;
      }
    }
    forall d | d in more ensures d.fp in done + {c.fp} && GoodCommand(s, v, u, d) {
      if d in commands { }
    }
    forall k, l | 0 <= k < l < |more| ensures more[k].fp != more[l].fp {
      assert more[k] in commands;
    }
  }

  lemma {:induction false} PlanSkip(s: Store, v: Id, u: Id, commands: seq<ModifyCommand>, done: set<Fp>, fp: Fp)
    requires s.lines.Keys == s.meta.Keys && v in s.lines
    requires PlanFor(s, v, u, commands, done) && u !in Users(s, v, fp)
    ensures PlanFor(s, v, u, commands, done + {fp})
  {
    hide GoodCommand, Users, Mentions;
  }

  /** Of the users of one fingerprint the least comes first. */
  method PickHead(users: set<ChooseInfo>) returns (head: ChooseInfo)
    requires users != {}
    ensures head in users && forall c | c in users :: head.AtMost(c)
  {
    head :| head in users;
    var rest := users - {head};
    while rest != {}
      invariant rest <= users && head in users
      invariant forall c | c in users && c !in rest :: head.AtMost(c)
      decreases rest
    {
      var c :| c in rest;
      if !head.AtMost(c) { head := c; }
      rest := rest - {c};
    }
  }

  /** The users of `fp` and the entries of the table are the same. */
  lemma {:induction false} TableUsers(s: Store, n: nat, v: Id, table: map<Fp, set<ChooseInfo>>, ids: set<Id>, fp: Fp,
                                      u: Id)
    requires Inv(s, n) && s.lines.Keys == s.meta.Keys && v in s.lines && ids <= s.lines.Keys
    requires ids == set r | r in s.meta[v].refs && r in s.lines
    requires TableFor(s, v, table, ids)
    ensures u in Users(s, v, fp) <==> fp in table && ChooseInfo(0, u) in table[fp]
  {
    hide RefersTo, Inv;
    MetaOf(s, n, v);
    if u in Users(s, v, fp) {
      UserInRefs(s, n, v, fp, u);
    }
    if fp in table && ChooseInfo(0, u) in table[fp] {
      assert u in ids && RefersTo(s.lines[u], fp, v);
    }
  }

  lemma {:induction false} UserInRefs(s: Store, n: nat, v: Id, fp: Fp, u: Id)
    requires Inv(s, n) && v in s.lines && v in s.meta && u in Users(s, v, fp)
    ensures u in s.meta[v].refs && u in s.lines && u in s.meta && s.meta[u].timeStamp == 0
    ensures HasStored(s.lines[v].infos, fp)
  {
    hide Inv, HasStored;
    var infos := s.lines[u].infos;
    var k :| 0 <= k < |infos| && infos[k].kind == REF && infos[k].compFp == fp && infos[k].external == v;
    UserGroup(s, n, v, fp, u, k);
    MetaOf(s, n, u);
  }

  /** The commands so far are right for every user line. */
  ghost predicate Planned(s: Store, v: Id, ids: set<Id>, commands: map<Id, seq<ModifyCommand>>, done: set<Fp>)
    requires s.lines.Keys == s.meta.Keys && v in s.lines
  {
    && commands.Keys <= ids && (forall u | u in commands :: commands[u] != [])
    && forall u | u in ids :: PlanFor(s, v, u, CommandsOf(commands, u), done)
  }

  /** Apart from new referrers the index entries of the users are what they were. */
  ghost predicate SameBut(refs: map<Id, IndexData>, refs': map<Id, IndexData>, h: Id, others: set<Id>) {
    && refs'.Keys == refs.Keys
    && forall u | u in refs :: refs'[u] == refs[u].(refs := refs[u].refs + if u == h then others else {})
  }

  ghost function IdsOf(users: set<ChooseInfo>): set<Id> {
    set c | c in users :: c.cachelineId
  }

  /** `users` are the lines using `fp`. */
  ghost predicate UsersAre(s: Store, v: Id, fp: Fp, users: set<ChooseInfo>) {
    && (forall c | c in users :: c.timestamp == 0)
    && (forall u: Id :: u in Users(s, v, fp) <==> ChooseInfo(0, u) in users)
  }

  lemma {:induction false} LeastIsHead(s: Store, n: nat, v: Id, fp: Fp, users: set<ChooseInfo>, head: ChooseInfo)
    requires Inv(s, n) && UsersAre(s, v, fp, users) && head in users
    requires forall c | c in users :: head.AtMost(c)
    ensures s.lines.Keys == s.meta.Keys && IsHead(s, v, fp, head.cachelineId)
  {
    hide Inv, RefersTo;
    LastIdOf(s, n);
    assert head == ChooseInfo(0, head.cachelineId);
    forall u | u in Users(s, v, fp) ensures Before(s, head.cachelineId, u) {
      assert ChooseInfo(0, u) in users;
      MetaOf(s, n, u);
      MetaOf(s, n, head.cachelineId);
    }
  }

  /** The part of the plan while the users of one fingerprint are being served. */
  ghost predicate Serving(s: Store, v: Id, ids: set<Id>, commands: map<Id, seq<ModifyCommand>>, done: set<Fp>, fp: Fp,
                          pending: set<ChooseInfo>)
    requires s.lines.Keys == s.meta.Keys && v in s.lines
  {
    && commands.Keys <= ids && (forall u | u in commands :: commands[u] != [])
    && forall u | u in ids ::
         PlanFor(s, v, u, CommandsOf(commands, u), if ChooseInfo(0, u) in pending then done else done + {fp})
  }

  lemma {:induction false} ServeNone(s: Store, v: Id, ids: set<Id>, commands: map<Id, seq<ModifyCommand>>,
                                     done: set<Fp>, fp: Fp, users: set<ChooseInfo>)
    requires s.lines.Keys == s.meta.Keys && v in s.lines
    requires Planned(s, v, ids, commands, done) && UsersAre(s, v, fp, users)
    ensures Serving(s, v, ids, commands, done, fp, users)
  {
    hide PlanFor, Users;
    forall u | u in ids
      ensures PlanFor(s, v, u, CommandsOf(commands, u), if ChooseInfo(0, u) in users then done else done + {fp})
    {
      if ChooseInfo(0, u) !in users {
        PlanSkip(s, v, u, CommandsOf(commands, u), done, fp);
      }
    }
  }

  lemma {:induction false} ServeOne(s: Store, v: Id, ids: set<Id>, commands: map<Id, seq<ModifyCommand>>, done: set<Fp>,
                                    fp: Fp, pending: set<ChooseInfo>, u: Id, c: ModifyCommand)
    requires s.lines.Keys == s.meta.Keys && v in s.lines && fp !in done
    requires Serving(s, v, ids, commands, done, fp, pending) && u in ids && ChooseInfo(0, u) in pending
    requires c.fp == fp && GoodCommand(s, v, u, c)
    ensures Serving(s, v, ids, AddCommand(commands, u, c), done, fp, pending - {ChooseInfo(0, u)})
  {
    hide PlanFor, Users, GoodCommand;
    PlanAdd(s, v, u, CommandsOf(commands, u), done, c);
  }

  lemma {:induction false} FpServed(s: Store, v: Id, ids: set<Id>, commands: map<Id, seq<ModifyCommand>>, done: set<Fp>,
                                  fp: Fp)
    requires s.lines.Keys == s.meta.Keys && v in s.lines && Serving(s, v, ids, commands, done, fp, {})
    ensures Planned(s, v, ids, commands, done + {fp})
  {
    hide PlanFor;
  }

  /** Moves one fingerprint: its first user gets the bytes and the other users. */
  method DispatchOne(fp: Fp, users: set<ChooseInfo>, bytes: seq<Byte>, commands0: map<Id, seq<ModifyCommand>>,
                     refs0: map<Id, IndexData>, ghost s: Store, ghost n: nat, ghost v: Id, ghost done: set<Fp>)
    returns (commands: map<Id, seq<ModifyCommand>>, refs: map<Id, IndexData>, head: Id)
    requires Inv(s, n) && s.lines.Keys == s.meta.Keys && v in s.lines && fp !in done
    requires users != {} && UsersAre(s, v, fp, users) && Users(s, v, fp) <= refs0.Keys
    requires HasStored(s.lines[v].infos, fp) && bytes == StoredBytes(s.lines[v], fp)
    requires Planned(s, v, refs0.Keys, commands0, done)
    ensures Planned(s, v, refs.Keys, commands, done + {fp})
    ensures IsHead(s, v, fp, head)
    ensures SameBut(refs0, refs, head, Users(s, v, fp) - {head})
  {
    hide Inv, Planned, Serving, IsHead, Users, HasStored, StoredBytes;
    var first := PickHead(users);
    LeastIsHead(s, n, v, fp, users, first);
    head := first.cachelineId;
    assert first == ChooseInfo(0, head);
    ServeNone(s, v, refs0.Keys, commands0, done, fp, users);
    var append := Append(fp, bytes);
    assert GoodCommand(s, v, head, append);
    ServeOne(s, v, refs0.Keys, commands0, done, fp, users, head, append);
    commands := AddCommand(commands0, head, append);
    refs := refs0;
    var pending := users - {first};
    ghost var served: set<Id> := {};
    while pending != {}
      invariant pending <= users - {first} && refs.Keys == refs0.Keys
      invariant Serving(s, v, refs0.Keys, commands, done, fp, pending)
      invariant served == IdsOf(users - {first} - pending)
      invariant SameBut(refs0, refs, head, served)
      decreases pending
    {
      var c :| c in pending;
      var u := c.cachelineId;
      assert c == ChooseInfo(0, u) && u in Users(s, v, fp) && u != head;
      refs := refs[head := refs[head].(refs := refs[head].refs + {u})];
      var redirect := ModifyRef(fp, head);
      assert GoodCommand(s, v, u, redirect);
      ServeOne(s, v, refs0.Keys, commands, done, fp, pending, u, redirect);
      commands := AddCommand(commands, u, redirect);
      assert users - {first} - (pending - {c}) == (users - {first} - pending) + {c};
      pending := pending - {c};
      served := served + {u};
    }
    FpServed(s, v, refs0.Keys, commands, done, fp);
    AllServed(s, v, fp, users, head);
    assert users - {first} - pending == users - {first};
  }

  lemma {:induction false} AllServed(s: Store, v: Id, fp: Fp, users: set<ChooseInfo>, head: Id)
    requires UsersAre(s, v, fp, users)
    ensures IdsOf(users - {ChooseInfo(0, head)}) == Users(s, v, fp) - {head}
  {
    hide Users;
    forall u: Id | u in Users(s, v, fp) - {head} ensures u in IdsOf(users - {ChooseInfo(0, head)}) {
      assert ChooseInfo(0, u) in users - {ChooseInfo(0, head)};
    }
  }

  /** Who takes over whom because of the fingerprints `done`. */
  ghost predicate TakenIn(s: Store, v: Id, h: Id, u: Id, done: set<Fp>)
    requires s.lines.Keys == s.meta.Keys
  {
    u != h && exists fp: Fp :: fp in done && IsHead(s, v, fp, h) && u in Users(s, v, fp)
  }

  /** The new referrers are exactly those taken over. */
  ghost predicate TakenRefs(s: Store, v: Id, refs: map<Id, IndexData>, refs': map<Id, IndexData>, done: set<Fp>)
    requires s.lines.Keys == s.meta.Keys
  {
    && refs'.Keys == refs.Keys
    && forall h | h in refs ::
         && refs'[h] == refs[h].(refs := refs'[h].refs)
         && forall u: Id :: u in refs'[h].refs <==> u in refs[h].refs || TakenIn(s, v, h, u, done)
  }

  /** Where the fingerprints of the victim are, once `done` are dealt with. */
  ghost predicate MovedTo(s: Store, v: Id, moved: map<Fp, Id>, done: set<Fp>)
    requires s.lines.Keys == s.meta.Keys && v in s.lines
  {
    && moved.Keys == FpsOf(s.lines[v]) && done <= moved.Keys
    && forall fp | fp in moved :: if fp in done then IsHead(s, v, fp, moved[fp]) else moved[fp] == v
  }

  lemma {:induction false} TakenOneMore(s: Store, n: nat, v: Id, refs: map<Id, IndexData>, a: map<Id, IndexData>,
                                        b: map<Id, IndexData>, done: set<Fp>, fp: Fp, head: Id)
    requires Inv(s, n) && s.lines.Keys == s.meta.Keys && TakenRefs(s, v, refs, a, done)
    requires IsHead(s, v, fp, head) && SameBut(a, b, head, Users(s, v, fp) - {head})
    ensures TakenRefs(s, v, refs, b, done + {fp})
  {
    hide Inv, IsHead, Users;
    forall h | h in refs
      ensures b[h] == refs[h].(refs := b[h].refs)
      ensures forall u: Id :: u in b[h].refs <==> u in refs[h].refs || TakenIn(s, v, h, u, done + {fp})
    {
      forall u: Id ensures u in b[h].refs <==> u in refs[h].refs || TakenIn(s, v, h, u, done + {fp}) {
        if q: Fp :| q in done + {fp} && IsHead(s, v, q, h) && u in Users(s, v, q) {
          if q == fp {
            OneHead(s, n, v, fp, h, head);
          } else {
            assert q in done;
          }
        }
      }
    }
  }

  lemma {:induction false} NothingTaken(s: Store, v: Id, refs: map<Id, IndexData>, moved: map<Fp, Id>)
    requires s.lines.Keys == s.meta.Keys && v in s.lines
    requires moved.Keys == FpsOf(s.lines[v]) && forall fp | fp in moved :: moved[fp] == v
    ensures TakenRefs(s, v, refs, refs, {}) && MovedTo(s, v, moved, {}) && Planned(s, v, refs.Keys, map[], {})
  {
    hide IsHead, Users, FpsOf;
  }

  lemma {:induction false} MovedOneMore(s: Store, v: Id, moved: map<Fp, Id>, done: set<Fp>, fp: Fp, head: Id)
    requires s.lines.Keys == s.meta.Keys && v in s.lines && MovedTo(s, v, moved, done)
    requires HasStored(s.lines[v].infos, fp) && IsHead(s, v, fp, head)
    ensures MovedTo(s, v, moved[fp := head], done + {fp})
  {
    hide IsHead, StoredBytes;
    var i := StoredBytesWitness(s.lines[v], fp);
    assert fp in FpsOf(s.lines[v]);
  }

  /** The table entry of a fingerprint is the set of its users. */
  lemma {:induction false} TableEntry(s: Store, n: nat, v: Id, table: map<Fp, set<ChooseInfo>>, ids: set<Id>, fp: Fp)
    requires Inv(s, n) && s.lines.Keys == s.meta.Keys && v in s.lines && ids <= s.lines.Keys && v !in ids
    requires ids == set r | r in s.meta[v].refs && r in s.lines
    requires TableFor(s, v, table, ids)
    ensures fp in table ==> UsersAre(s, v, fp, table[fp]) && table[fp] != {} && Users(s, v, fp) <= ids
    ensures fp in table ==> HasStored(s.lines[v].infos, fp)
    ensures fp in table <==> Users(s, v, fp) != {}
  {
    hide Inv, RefersTo, Users, HasStored;
    forall u: Id
      ensures u in Users(s, v, fp) <==> fp in table && ChooseInfo(0, u) in table[fp]
      ensures u in Users(s, v, fp) ==> u in ids && HasStored(s.lines[v].infos, fp)
    {
      TableUsers(s, n, v, table, ids, fp, u);
      if u in Users(s, v, fp) {
        MetaOf(s, n, v);
        UserInRefs(s, n, v, fp, u);
      }
    }
    if fp in table {
      forall c | c in table[fp] ensures c.timestamp == 0 { MetaOf(s, n, c.cachelineId); }
      var c :| c in table[fp];
      assert c == ChooseInfo(0, c.cachelineId);
    }
  }

  /** All commands, fingerprint by fingerprint in any order. */
  method BuildCommands(table: map<Fp, set<ChooseInfo>>, stored: map<Fp, nat>, line: Cacheline,
                       refs0: map<Id, IndexData>, moved0: map<Fp, Id>, ghost s: Store, ghost n: nat, ghost v: Id)
    returns (commands: map<Id, seq<ModifyCommand>>, refs: map<Id, IndexData>, moved: map<Fp, Id>)
    requires Inv(s, n) && s.lines.Keys == s.meta.Keys && v in s.lines && line == s.lines[v]
    requires refs0.Keys == (set r | r in s.meta[v].refs && r in s.lines) && v !in refs0
    requires TableFor(s, v, table, refs0.Keys)
    requires forall fp: Fp :: fp in stored <==> HasStored(line.infos, fp)
    requires forall fp: Fp | fp in stored :: StoredAt(line, fp, stored[fp])
    requires moved0.Keys == FpsOf(line) && forall fp | fp in moved0 :: moved0[fp] == v
    ensures Planned(s, v, refs0.Keys, commands, table.Keys) && AllUsed(s, v, table.Keys)
    ensures TakenRefs(s, v, refs0, refs, table.Keys)
    ensures MovedTo(s, v, moved, table.Keys)
  {
    hide Inv, Planned, IsHead, Users, HasStored, StoredBytes, TakenRefs, MovedTo, TableFor, UsersAre, SameBut, StoredAt,
         FpsOf;
    NothingTaken(s, v, refs0, moved0);
    commands, refs, moved := map[], refs0, moved0;
    var pending := table.Keys;
    assert table.Keys - pending == {};
    while pending != {}
      invariant pending <= table.Keys && refs.Keys == refs0.Keys
      invariant Planned(s, v, refs0.Keys, commands, table.Keys - pending)
      invariant TakenRefs(s, v, refs0, refs, table.Keys - pending)
      invariant MovedTo(s, v, moved, table.Keys - pending)
      decreases pending
    {
      var fp: Fp :| fp in pending;
      ghost var done := table.Keys - pending;
      TableEntry(s, n, v, table, refs0.Keys, fp);
      StoredPosition(s, n, v, fp, stored[fp]);
      ghost var before := refs;
      var head;
      commands, refs, head := DispatchOne(fp, table[fp], line.data[stored[fp]], commands, refs, s, n, v, done);
      DispatchedKeys(before, refs, head, Users(s, v, fp) - {head});
      TakenOneMore(s, n, v, refs0, before, refs, done, fp, head);
      MovedOneMore(s, v, moved, done, fp, head);
      moved := moved[fp := head];
      assert table.Keys - (pending - {fp}) == done + {fp};
      pending := pending - {fp};
    }
    assert table.Keys - pending == table.Keys;
    forall fp: Fp | Users(s, v, fp) != {} ensures fp in table {
      TableEntry(s, n, v, table, refs0.Keys, fp);
    }
  }

  lemma {:induction false} DispatchedKeys(a: map<Id, IndexData>, b: map<Id, IndexData>, h: Id, others: set<Id>)
    requires SameBut(a, b, h, others)
    ensures b.Keys == a.Keys
  {
  }

  // ----- rewriting the users -----------------------------------------------------------------

  /** A line about to be rewritten can be. */
  ghost predicate CanRewrite(line: Cacheline, commands: seq<ModifyCommand>, n: nat) {
    && WellLaidOut(line, n) && Applicable(line, commands) && WellLaidOut(ApplyAll(line, commands), n)
    && |line.data| < |line.layout| && line.layout[|line.data|].len == NONE32
    && forall j | 0 <= j < |line.data| :: line.layout[j].len != NONE32
  }

  /** One line is rewritten: read, changed, its pages given back, written to fresh pages. Fails exactly when the
      free pages and its own do not suffice; what the source does after that is undefined. */
  method ModifyCacheline(proxy: SSDProxy, commands: seq<ModifyCommand>, data: IndexData, ghost u: Id,
                         ghost meta: map<Id, IndexData>, ghost lines: map<Id, Cacheline>)
    returns (ok: bool, data': IndexData)
    requires OnProxy(proxy, meta, lines) && u in meta && u in lines && meta[u] == data
    requires CanRewrite(lines[u], commands, proxy.blockCount)
    modifies proxy.manager, proxy.device.buffer
    ensures proxy.Valid() && data' == data.(pages := data'.pages)
    ensures ok == (PagesFor(MetadataLen(proxy.blockCount) + Total(ApplyAll(lines[u], commands).data), proxy.PG) <=
                   old(proxy.manager.freeBlocks) + |data.pages|)
    ensures ok ==> OnProxy(proxy, meta[u := data'], lines[u := ApplyAll(lines[u], commands)])
    ensures ok ==> proxy.manager.freeBlocks + |data'.pages| == old(proxy.manager.freeBlocks) + |data.pages|
  {
    hide WellLaidOut, Applicable, ApplyAll, Holds, PageCount, Shared, Elements, Distinct,
         StackedDiscretePageManager.Free, PagesFor, Total, PageOf, OnDevice, AllHeld;
    ghost var disk, free := proxy.Disk(), proxy.manager.Free();
    ghost var rest := meta - {u};
    HeldLine(disk, proxy.PG, meta, lines, u);
    var line := proxy.ReadStored(data.pages, lines[u]);
    var updated := UpdateLine(line, commands);
    PagesBelow(free, meta, proxy.manager.size, u);
    proxy.ReclaimAll(data.pages);
    ShareReleased(free, meta, proxy.manager.size, u);
    ghost var free1 := proxy.manager.Free();
    var pages;
    ok, pages := proxy.WriteCacheline(updated);
    data' := data.(pages := pages);
    if ok {
      forall q: nat | q !in free && OnDevice(|disk|, proxy.PG, q) && q !in Elements(data.pages)
        ensures PageOf(proxy.Disk(), proxy.PG, q) == PageOf(disk, proxy.PG, q)
      {
        assert q !in free1;
        assert q !in pages by { assert q !in Elements(pages); }
      }
      OthersHeld(disk, proxy.Disk(), proxy.PG, free, meta, lines, proxy.manager.size, u);
      ShareTaken(free1, rest, proxy.manager.size, u, data');
      assert rest[u := data'] == meta[u := data'];
      HeldAgain(proxy.Disk(), proxy.PG, meta, lines, u, data', updated);
    }
  }

  lemma {:induction false} HeldLine(disk: seq<Byte>, pg: nat, meta: map<Id, IndexData>, lines: map<Id, Cacheline>,
                                    u: Id)
    requires AllHeld(disk, pg, meta, lines) && u in meta && u in lines
    ensures Holds(disk, pg, meta[u].pages, lines[u])
  {
  }

  lemma {:induction false} HeldAgain(disk: seq<Byte>, pg: nat, meta: map<Id, IndexData>, lines: map<Id, Cacheline>,
                                     u: Id, data: IndexData, line: Cacheline)
    requires AllHeld(disk, pg, meta - {u}, lines) && Holds(disk, pg, data.pages, line)
    ensures AllHeld(disk, pg, meta[u := data], lines[u := line])
  {
    hide Holds;
    forall id | id in meta && id != u && id in lines ensures Holds(disk, pg, meta[id].pages, lines[id]) {
      assert id in meta - {u};
    }
  }

  lemma {:induction false} EvictedIsLaidOut(s: Store, v: Id, u: Id, r: Cacheline, n: nat)
    requires s.lines.Keys == s.meta.Keys && v in s.lines && u in s.lines && LineEvicted(s, v, u, r, n)
    ensures WellLaidOut(r, n)
  {
    hide BlockEvicted, GoodInfo, SlotsMatch, GroupsAgree, Coherent;
  }

  /** A line with commands has references, so it can be rewritten. */
  lemma {:induction false} PlannedCanRewrite(s: Store, n: nat, max: nat, v: Id, u: Id, commands: seq<ModifyCommand>,
                                             done: set<Fp>)
    requires Inv(s, n) && SmallStore(s, n, max) && v in s.lines && u in s.lines && u != v && commands != []
    requires PlanFor(s, v, u, commands, done) && AllUsed(s, v, done)
    ensures CanRewrite(s.lines[u], commands, n)
  {
    hide Inv, SmallStore, AllUsed, WellLaidOut, WellFormed, IsHead, Users, ApplyAll, Applicable, LineEvicted, AllSmall,
         HasRef;
    LastIdOf(s, n);
    PlanEvicts(s, n, max, v, u, commands, done);
    EvictedIsLaidOut(s, v, u, ApplyAll(s.lines[u], commands), n);
    LineIsGood(s, n, u);
    LaidOutSizes(s.lines[u], n);
    var c := commands[0];
    assert GoodCommand(s, v, u, c);
    UserHasRef(s, v, c.fp, u);
    FreeSlot(s.lines[u], n, c.fp);
  }

  /** The index entries while the users are rewritten one by one. */
  function Entries(s: Store, v: Id, refs: map<Id, IndexData>): map<Id, IndexData> {
    (s.meta - {v}) + refs
  }

  /** The users in `served` are rewritten, the other lines are as before. */
  ghost predicate Rewritten(s: Store, commands: map<Id, seq<ModifyCommand>>, served: set<Id>, lines: map<Id, Cacheline>)
  {
    && lines.Keys == s.lines.Keys
    && forall u | u in lines ::
         if u in served then u in commands && Applicable(s.lines[u], commands[u]) &&
                             lines[u] == ApplyAll(s.lines[u], commands[u])
         else lines[u] == s.lines[u]
  }

  /** A plan all of whose lists are in use. */
  ghost predicate FullPlan(s: Store, n: nat, max: nat, v: Id, ids: set<Id>, commands: map<Id, seq<ModifyCommand>>,
                           done: set<Fp>)
    requires s.lines.Keys == s.meta.Keys && v in s.lines
  {
    && Inv(s, n) && SmallStore(s, n, max) && ids <= s.lines.Keys && v !in ids
    && Planned(s, v, ids, commands, done) && AllUsed(s, v, done)
  }

  /** What rewriting line `u` means for it and for the pages. */
  lemma {:induction false} OneRewrite(s: Store, n: nat, max: nat, pg: nat, v: Id, ids: set<Id>,
                                      commands: map<Id, seq<ModifyCommand>>, done: set<Fp>, u: Id)
    requires s.lines.Keys == s.meta.Keys && v in s.lines && FullPlan(s, n, max, v, ids, commands, done)
    requires u in commands && pg > 0
    ensures u in ids && u in s.lines && CanRewrite(s.lines[u], commands[u], n) && WellLaidOut(s.lines[u], n)
    ensures Applicable(s.lines[u], commands[u])
    ensures WellLaidOut(ApplyAll(s.lines[u], commands[u]), n)
    ensures PagesFor(MetadataLen(n) + Total(ApplyAll(s.lines[u], commands[u]).data), pg) ==
            PagesFor(MetadataLen(n) + Total(s.lines[u].data), pg) + Growth(s, n, pg, v, u)
  {
    hide Inv, SmallStore, AllUsed, PlanFor, IsHead, Users, PagesFor, Total, ApplyAll, LineEvicted, CanRewrite, AllSmall,
         Applicable, AppendedBytes, MovedBytes;
    assert PlanFor(s, v, u, CommandsOf(commands, u), done);
    LineIsGood(s, n, u);
    PlannedCanRewrite(s, n, max, v, u, commands[u], done);
    PlanEvicts(s, n, max, v, u, commands[u], done);
    EvictedIsLaidOut(s, v, u, ApplyAll(s.lines[u], commands[u]), n);
    PlanBytes(s, n, v, u, commands[u], done);
    PagesForBoth(MetadataLen(n) + Total(s.lines[u].data), MovedBytes(s, v, u), pg);
  }

  /** Rewrites every line that has commands, in any order. Succeeds exactly when the free pages cover what all of
      them grow by. */
  method ApplyCommands(proxy: SSDProxy, commands: map<Id, seq<ModifyCommand>>, refs0: map<Id, IndexData>,
                       ghost s: Store, ghost n: nat, ghost max: nat, ghost v: Id, ghost done: set<Fp>)
    returns (ok: bool, refs: map<Id, IndexData>, ghost lines: map<Id, Cacheline>)
    requires s.lines.Keys == s.meta.Keys && v in s.lines && FullPlan(s, n, max, v, refs0.Keys, commands, done)
    requires proxy.blockCount == n && OnProxy(proxy, Entries(s, v, refs0), s.lines)
    requires forall u | u in refs0 :: refs0[u].pages == s.meta[u].pages
    modifies proxy.manager, proxy.device.buffer
    ensures proxy.Valid()
    ensures commands.Keys <= s.lines.Keys
    ensures ok == (TotalGrowth(s, n, proxy.PG, v, commands.Keys) <= old(proxy.manager.freeBlocks))
    ensures ok ==> OnProxy(proxy, Entries(s, v, refs), lines) && Rewritten(s, commands, commands.Keys, lines)
    ensures ok ==> refs.Keys == refs0.Keys && forall u | u in refs :: refs[u] == refs0[u].(pages := refs[u].pages)
    ensures ok ==> proxy.manager.freeBlocks + TotalGrowth(s, n, proxy.PG, v, commands.Keys) ==
                   old(proxy.manager.freeBlocks)
  {
    hide *;
    ProxyIsValid(proxy, Entries(s, v, refs0), s.lines);
    PlanIds(s, n, max, v, refs0.Keys, commands, done);
    refs, lines, ok := refs0, s.lines, true;
    var pending := commands.Keys;
    ghost var served: set<Id> := {};
    NoTotalGrowth(s, n, proxy.PG, v);
    NothingRewrittenYet(s, commands);
    while pending != {}
      invariant pending <= commands.Keys && served == commands.Keys - pending
      invariant proxy.Valid() && OnProxy(proxy, Entries(s, v, refs), lines) && Rewritten(s, commands, served, lines)
      invariant refs.Keys == refs0.Keys && forall u | u in refs :: refs[u] == refs0[u].(pages := refs[u].pages)
      invariant forall u | u in refs && u !in served :: refs[u].pages == s.meta[u].pages
      invariant proxy.manager.freeBlocks + TotalGrowth(s, n, proxy.PG, v, served) == old(proxy.manager.freeBlocks)
      decreases pending
    {
      var u: Id :| u in pending;
      GrowthOfOne(s, n, proxy.PG, v, served, u, commands.Keys);
      ok, refs, lines := RewriteUser(proxy, commands, refs, u, s, n, max, v, done, served, lines);
      if !ok { return; }
      pending, served := pending - {u}, served + {u};
    }
    assert served == commands.Keys;
  }

  lemma {:induction false} ProxyIsValid(proxy: SSDProxy, meta: map<Id, IndexData>, lines: map<Id, Cacheline>)
    requires OnProxy(proxy, meta, lines)
    ensures proxy.Valid() && proxy.PG > 0
  {
  }

  lemma {:induction false} NothingRewrittenYet(s: Store, commands: map<Id, seq<ModifyCommand>>)
    ensures Rewritten(s, commands, {}, s.lines)
  {
  }

  /** One round of `ApplyCommands`. */
  method RewriteUser(proxy: SSDProxy, commands: map<Id, seq<ModifyCommand>>, refs0: map<Id, IndexData>, u: Id,
                     ghost s: Store, ghost n: nat, ghost max: nat, ghost v: Id, ghost done: set<Fp>,
                     ghost served: set<Id>, ghost lines0: map<Id, Cacheline>)
    returns (ok: bool, refs: map<Id, IndexData>, ghost lines: map<Id, Cacheline>)
    requires s.lines.Keys == s.meta.Keys && v in s.lines && FullPlan(s, n, max, v, refs0.Keys, commands, done)
    requires proxy.blockCount == n && OnProxy(proxy, Entries(s, v, refs0), lines0)
    requires Rewritten(s, commands, served, lines0) && u in commands && u !in served
    modifies proxy.manager, proxy.device.buffer
    ensures proxy.Valid() && u in s.lines && proxy.PG > 0
    ensures ok == (Growth(s, n, proxy.PG, v, u) <= old(proxy.manager.freeBlocks))
    ensures ok ==> OnProxy(proxy, Entries(s, v, refs), lines) && Rewritten(s, commands, served + {u}, lines)
    ensures ok ==> refs.Keys == refs0.Keys && u in refs
    ensures ok ==> refs == refs0[u := refs0[u].(pages := refs[u].pages)]
    ensures ok ==> proxy.manager.freeBlocks + Growth(s, n, proxy.PG, v, u) == old(proxy.manager.freeBlocks)
  {
    hide Inv, SmallStore, AllUsed, PlanFor, Planned, Growth, PagesFor, Total, ApplyAll, CanRewrite, WellLaidOut, Shared,
         AllHeld, PageCount, FullPlan, Holds, OnProxy, Rewritten, Applicable;
    ProxyIsValid(proxy, Entries(s, v, refs0), lines0);
    PlanIds(s, n, max, v, refs0.Keys, commands, done);
    OneRewrite(s, n, max, proxy.PG, v, refs0.Keys, commands, done, u);
    ghost var meta := Entries(s, v, refs0);
    ghost var line := ApplyAll(s.lines[u], commands[u]);
    RewrittenAt(s, commands, served, lines0, u);
    PagesOnProxy(proxy, meta, lines0, u, n);
    refs, lines := refs0, lines0;
    var data;
    ok, data := ModifyCacheline(proxy, commands[u], refs0[u], u, meta, lines0);
    if ok {
      refs := refs0[u := data];
      assert Entries(s, v, refs) == meta[u := data];
      lines := lines0[u := line];
      OneMoreRewritten(s, commands, served, lines0, u);
      PagesOnProxy(proxy, Entries(s, v, refs), lines, u, n);
    }
  }

  lemma {:induction false} RewrittenAt(s: Store, commands: map<Id, seq<ModifyCommand>>, served: set<Id>,
                                       lines: map<Id, Cacheline>, u: Id)
    requires Rewritten(s, commands, served, lines) && u in s.lines && u !in served
    ensures lines.Keys == s.lines.Keys && lines[u] == s.lines[u]
  {
    hide ApplyAll, Applicable;
  }

  lemma {:induction false} OneMoreRewritten(s: Store, commands: map<Id, seq<ModifyCommand>>, served: set<Id>,
                                            lines: map<Id, Cacheline>, u: Id)
    requires Rewritten(s, commands, served, lines) && u in s.lines && u !in served && u in commands
    requires Applicable(s.lines[u], commands[u])
    ensures Rewritten(s, commands, served + {u}, lines[u := ApplyAll(s.lines[u], commands[u])])
  {
    hide ApplyAll, Applicable;
  }

  lemma {:induction false} PagesOnProxy(proxy: SSDProxy, meta: map<Id, IndexData>, lines: map<Id, Cacheline>, u: Id,
                                        n: nat)
    requires OnProxy(proxy, meta, lines) && u in meta && u in lines && WellLaidOut(lines[u], n)
    ensures proxy.PG > 0 && |meta[u].pages| == PagesFor(MetadataLen(n) + Total(lines[u].data), proxy.PG)
  {
    hide WellLaidOut, AllHeld, Shared;
    PagesOfLine(proxy.Disk(), proxy.PG, meta, lines, u, n);
  }

  lemma {:induction false} PlanIds(s: Store, n: nat, max: nat, v: Id, ids: set<Id>,
                                   commands: map<Id, seq<ModifyCommand>>, done: set<Fp>)
    requires s.lines.Keys == s.meta.Keys && v in s.lines && FullPlan(s, n, max, v, ids, commands, done)
    ensures commands.Keys <= ids <= s.lines.Keys && v !in ids
    ensures Inv(s, n)
  {
    hide Inv, PlanFor, SmallStore, AllUsed;
  }

  lemma {:induction false} NoTotalGrowth(s: Store, n: nat, pg: nat, v: Id)
    requires s.lines.Keys == s.meta.Keys && v in s.lines && pg > 0
    ensures TotalGrowth(s, n, pg, v, {}) == 0
  {
  }

  lemma {:induction false} GrowthOfOne(s: Store, n: nat, pg: nat, v: Id, served: set<Id>, u: Id, all: set<Id>)
    requires s.lines.Keys == s.meta.Keys && v in s.lines && pg > 0
    requires served <= all <= s.lines.Keys && u in all && u !in served
    ensures TotalGrowth(s, n, pg, v, served + {u}) == Growth(s, n, pg, v, u) + TotalGrowth(s, n, pg, v, served)
    ensures TotalGrowth(s, n, pg, v, served + {u}) <= TotalGrowth(s, n, pg, v, all)
  {
    hide Growth, TotalGrowth;
    GrowthTakes(s, n, pg, v, served + {u}, u);
    assert served + {u} - {u} == served;
    GrowthOfMore(s, n, pg, v, served + {u}, all);
  }

  lemma {:induction false} PagesOfLine(disk: seq<Byte>, pg: nat, meta: map<Id, IndexData>, lines: map<Id, Cacheline>,
                                       u: Id, n: nat)
    requires AllHeld(disk, pg, meta, lines) && u in meta && u in lines && pg > 0 && WellLaidOut(lines[u], n)
    ensures |meta[u].pages| == PagesFor(MetadataLen(n) + Total(lines[u].data), pg)
  {
    hide Holds, WellLaidOut;
    HeldLine(disk, pg, meta, lines, u);
    PagesHeld(disk, pg, meta[u].pages, lines[u], n);
  }

  // ----- removing a line ---------------------------------------------------------------------

  /** The lines that can refer to the victim. */
  ghost predicate UsersGiven(s: Store, v: Id, refs: map<Id, IndexData>)
    requires s.lines.Keys == s.meta.Keys && v in s.meta
  {
    && refs.Keys == (set r | r in s.meta[v].refs && r in s.lines)
    && forall u | u in refs :: u in s.meta && refs[u] == s.meta[u]
  }

  /** What a removal leaves for the index to record: rewritten lines on new pages, new referrers, and the fate of the
      victim's fingerprints. */
  ghost predicate Removed(s: Store, n: nat, v: Id, refs: map<Id, IndexData>, moved: map<Fp, Id>,
                          lines: map<Id, Cacheline>)
    requires s.lines.Keys == s.meta.Keys && v in s.lines
  {
    && lines.Keys == s.lines.Keys
    && (forall u | u in s.lines && u != v :: LineEvicted(s, v, u, lines[u], n))
    && (forall h | h in s.lines && h != v && h !in refs :: forall u: Id :: !TakenOver(s, v, h, u))
    && refs.Keys <= s.lines.Keys - {v}
    && (forall h | h in refs ::
          && refs[h].timeStamp == s.meta[h].timeStamp
          && forall u: Id :: u in refs[h].refs <==> u in s.meta[h].refs || TakenOver(s, v, h, u))
    && moved.Keys == FpsOf(s.lines[v])
    && (forall fp: Fp | Users(s, v, fp) != {} :: fp in moved && IsHead(s, v, fp, moved[fp]))
    && (forall fp | fp in moved && Users(s, v, fp) == {} :: moved[fp] == v)
  }

  /** The pages all survivors together grow by when `v` is evicted. */
  ghost function EvictionCost(s: Store, n: nat, pg: nat, v: Id): nat
    requires s.lines.Keys == s.meta.Keys && v in s.lines && pg > 0
  {
    TotalGrowth(s, n, pg, v, s.lines.Keys - {v})
  }

  /** Removes line `v`. Succeeds exactly when the free pages and the victim's cover what the survivors grow by. */
  method RemoveCacheline(proxy: SSDProxy, v: Id, cur: IndexData, refs0: map<Id, IndexData>, ghost s: Store,
                         ghost n: nat, ghost max: nat)
    returns (ok: bool, refs: map<Id, IndexData>, moved: map<Fp, Id>, ghost lines: map<Id, Cacheline>)
    requires Inv(s, n) && SmallStore(s, n, max) && s.lines.Keys == s.meta.Keys && v in s.lines
    requires cur == s.meta[v] && UsersGiven(s, v, refs0)
    requires proxy.blockCount == n && OnProxy(proxy, s.meta, s.lines)
    modifies proxy.manager, proxy.device.buffer
    ensures proxy.Valid() && proxy.PG > 0
    ensures ok == (EvictionCost(s, n, proxy.PG, v) <= old(proxy.manager.freeBlocks) + |cur.pages|)
    ensures ok ==> Removed(s, n, v, refs, moved, lines)
    ensures ok ==> refs.Keys == refs0.Keys && OnProxy(proxy, Entries(s, v, refs), lines)
    ensures ok ==> proxy.manager.freeBlocks + EvictionCost(s, n, proxy.PG, v) ==
                   old(proxy.manager.freeBlocks) + |cur.pages|
  {
    hide Inv, SmallStore, OnProxy, UsersGiven, Removed, EvictionCost, TableFor, Planned, AllUsed, TakenRefs, MovedTo,
         TotalGrowth, Rewritten, FullPlan;
    ProxyIsValid(proxy, s.meta, s.lines);
    LineIsGood(s, n, v);
    var line := ReadLine(proxy, cur.pages, v, s, n);
    var stored;
    stored, moved := CollectStored(line, v);
    ReleaseLine(proxy, v, cur.pages, s, n);
    VictimNotUser(s, n, v, refs0);
    assert Entries(s, v, refs0) == s.meta - {v} by { SameEntries(s, v, refs0); }
    ProxyIsValid(proxy, s.meta - {v}, s.lines);
    if refs0 == map[] {
      refs, lines, ok := refs0, s.lines, true;
      NobodyUses(s, n, max, proxy.PG, v, refs, moved);
      return;
    }
    var table := ReadUsers(proxy, refs0, v, stored, s, n);
    var commands;
    commands, refs, moved := BuildCommands(table, stored, line, refs0, moved, s, n, v);
    PlanIsFull(s, n, max, v, refs0, refs, commands, table.Keys);
    EntriesShared(proxy, s, v, refs0, refs, table.Keys);
    ghost var refs1 := refs;
    ok, refs, lines := ApplyCommands(proxy, commands, refs, s, n, max, v, table.Keys);
    CostIsGrowth(s, n, max, proxy.PG, v, refs0.Keys, commands, table.Keys);
    TableUsed(s, n, v, table, refs0.Keys);
    if ok {
      RemovedAll(s, n, max, v, refs0, refs1, refs, commands, moved, table.Keys, lines);
    }
  }

  lemma {:induction false} TableUsed(s: Store, n: nat, v: Id, table: map<Fp, set<ChooseInfo>>, ids: set<Id>)
    requires Inv(s, n) && s.lines.Keys == s.meta.Keys && v in s.lines && ids <= s.lines.Keys && v !in ids
    requires ids == set r | r in s.meta[v].refs && r in s.lines
    requires TableFor(s, v, table, ids)
    ensures forall fp: Fp :: fp in table.Keys ==> Users(s, v, fp) != {}
  {
    hide Inv, Users, TableFor;
    forall fp: Fp ensures fp in table.Keys ==> Users(s, v, fp) != {} {
      TableEntry(s, n, v, table, ids, fp);
    }
  }

  method ReadLine(proxy: SSDProxy, pages: seq<nat>, ghost v: Id, ghost s: Store, ghost n: nat) returns (line: Cacheline)
    requires Inv(s, n) && v in s.lines && v in s.meta && pages == s.meta[v].pages
    requires proxy.blockCount == n && OnProxy(proxy, s.meta, s.lines)
    ensures line == s.lines[v]
  {
    hide Inv, Shared, Holds, WellLaidOut, PageCount;
    LineIsGood(s, n, v);
    HeldLine(proxy.Disk(), proxy.PG, s.meta, s.lines, v);
    line := proxy.ReadStored(pages, s.lines[v]);
  }

  method ReleaseLine(proxy: SSDProxy, ghost v: Id, pages: seq<nat>, ghost s: Store, ghost n: nat)
    requires v in s.lines && v in s.meta && pages == s.meta[v].pages && OnProxy(proxy, s.meta, s.lines)
    modifies proxy.manager
    ensures OnProxy(proxy, s.meta - {v}, s.lines)
    ensures proxy.manager.freeBlocks == old(proxy.manager.freeBlocks) + |pages|
  {
    hide Shared, Holds, PageCount, StackedDiscretePageManager.Free, Elements, Distinct;
    ghost var free := proxy.manager.Free();
    PagesBelow(free, s.meta, proxy.manager.size, v);
    proxy.ReclaimAll(pages);
    ShareReleased(free, s.meta, proxy.manager.size, v);
  }

  method ReadUsers(proxy: SSDProxy, refs: map<Id, IndexData>, v: Id, stored: map<Fp, nat>, ghost s: Store, ghost n: nat)
    returns (table: map<Fp, set<ChooseInfo>>)
    requires Inv(s, n) && s.lines.Keys == s.meta.Keys && v in s.lines && UsersGiven(s, v, refs) && v !in refs
    requires proxy.blockCount == n && OnProxy(proxy, s.meta - {v}, s.lines)
    requires forall fp: Fp :: fp in stored <==> HasStored(s.lines[v].infos, fp)
    ensures refs.Keys <= s.lines.Keys && TableFor(s, v, table, refs.Keys)
  {
    hide Inv, Shared, Holds, PageCount, TableFor, HasStored;
    forall u | u in refs ensures Holds(proxy.Disk(), proxy.PG, refs[u].pages, s.lines[u]) {
      assert u in s.meta - {v};
      HeldLine(proxy.Disk(), proxy.PG, s.meta - {v}, s.lines, u);
    }
    table := BuildRefTable(proxy, refs, v, stored, s, n);
  }

  lemma {:induction false} VictimNotUser(s: Store, n: nat, v: Id, refs: map<Id, IndexData>)
    requires Inv(s, n) && s.lines.Keys == s.meta.Keys && v in s.lines && UsersGiven(s, v, refs)
    ensures v !in refs && refs.Keys <= s.lines.Keys
    ensures refs.Keys == (set r | r in s.meta[v].refs && r in s.lines)
  {
    hide Inv;
    MetaOf(s, n, v);
  }

  lemma {:induction false} SameEntries(s: Store, v: Id, refs: map<Id, IndexData>)
    requires s.lines.Keys == s.meta.Keys && v in s.meta && UsersGiven(s, v, refs) && v !in refs
    ensures Entries(s, v, refs) == s.meta - {v}
  {
  }

  lemma {:induction false} PlanIsFull(s: Store, n: nat, max: nat, v: Id, refs0: map<Id, IndexData>,
                                      refs: map<Id, IndexData>, commands: map<Id, seq<ModifyCommand>>, done: set<Fp>)
    requires Inv(s, n) && SmallStore(s, n, max) && s.lines.Keys == s.meta.Keys && v in s.lines
    requires refs0.Keys <= s.lines.Keys && v !in refs0 && TakenRefs(s, v, refs0, refs, done)
    requires Planned(s, v, refs0.Keys, commands, done) && AllUsed(s, v, done)
    ensures refs.Keys == refs0.Keys && FullPlan(s, n, max, v, refs.Keys, commands, done)
  {
    hide Inv, SmallStore, Planned, AllUsed;
  }

  /** New referrers do not change who owns which page. */
  lemma {:induction false} EntriesShared(proxy: SSDProxy, s: Store, v: Id, refs0: map<Id, IndexData>,
                                         refs: map<Id, IndexData>, done: set<Fp>)
    requires s.lines.Keys == s.meta.Keys && v in s.lines && v !in refs0 && UsersGiven(s, v, refs0)
    requires TakenRefs(s, v, refs0, refs, done) && OnProxy(proxy, s.meta - {v}, s.lines)
    ensures OnProxy(proxy, Entries(s, v, refs), s.lines)
    ensures forall u | u in refs :: u in s.meta && refs[u].pages == s.meta[u].pages
  {
    hide Shared, Holds, PageCount, TakenIn, StackedDiscretePageManager.Free;
    var a, b := s.meta - {v}, Entries(s, v, refs);
    forall id | id in a ensures b[id].pages == a[id].pages { }
    SharePagesOnly(proxy.manager.Free(), a, b, proxy.manager.size);
  }

  /** Only lines with commands grow. */
  lemma {:induction false} CostIsGrowth(s: Store, n: nat, max: nat, pg: nat, v: Id, ids: set<Id>,
                                        commands: map<Id, seq<ModifyCommand>>, done: set<Fp>)
    requires Inv(s, n) && s.lines.Keys == s.meta.Keys && v in s.lines && ids <= s.lines.Keys && v !in ids && pg > 0
    requires ids == set r | r in s.meta[v].refs && r in s.lines
    requires Planned(s, v, ids, commands, done) && AllUsed(s, v, done)
    ensures commands.Keys <= s.lines.Keys
    ensures EvictionCost(s, n, pg, v) == TotalGrowth(s, n, pg, v, commands.Keys)
  {
    hide Inv, TotalGrowth, AllUsed, IsHead;
    forall u, fp: Fp | u in s.lines.Keys - {v} && u !in commands.Keys ensures !IsHead(s, v, fp, u) {
      NoCommandsNoHead(s, n, v, ids, commands, done, u, fp);
    }
    OnlyHeadsGrow(s, n, pg, v, s.lines.Keys - {v}, commands.Keys);
  }

  lemma {:induction false} NoCommandsNoUser(s: Store, n: nat, v: Id, ids: set<Id>,
                                            commands: map<Id, seq<ModifyCommand>>, done: set<Fp>, u: Id, fp: Fp)
    requires Inv(s, n) && s.lines.Keys == s.meta.Keys && v in s.lines
    requires ids == set r | r in s.meta[v].refs && r in s.lines
    requires Planned(s, v, ids, commands, done) && AllUsed(s, v, done) && u !in commands
    ensures u !in Users(s, v, fp)
  {
    hide Inv, GoodCommand, RefersTo;
    if u in Users(s, v, fp) {
      UserInRefs(s, n, v, fp, u);
    }
    if u in ids {
      assert PlanFor(s, v, u, CommandsOf(commands, u), done);
      assert !Mentions([], fp);
    }
  }

  lemma {:induction false} NoCommandsNoHead(s: Store, n: nat, v: Id, ids: set<Id>,
                                            commands: map<Id, seq<ModifyCommand>>, done: set<Fp>, u: Id, fp: Fp)
    requires Inv(s, n) && s.lines.Keys == s.meta.Keys && v in s.lines
    requires ids == set r | r in s.meta[v].refs && r in s.lines
    requires Planned(s, v, ids, commands, done) && AllUsed(s, v, done) && u !in commands
    ensures !IsHead(s, v, fp, u)
  {
    hide Inv, Planned, AllUsed, Users;
    NoCommandsNoUser(s, n, v, ids, commands, done, u, fp);
  }

  lemma {:induction false} NobodyUses(s: Store, n: nat, max: nat, pg: nat, v: Id, refs: map<Id, IndexData>,
                                      moved: map<Fp, Id>)
    requires Inv(s, n) && s.lines.Keys == s.meta.Keys && v in s.lines && pg > 0
    requires refs == map[] && UsersGiven(s, v, refs)
    requires moved.Keys == FpsOf(s.lines[v]) && forall fp | fp in moved :: moved[fp] == v
    ensures Removed(s, n, v, refs, moved, s.lines)
    ensures EvictionCost(s, n, pg, v) == 0
  {
    hide Inv, TotalGrowth, LineEvicted, RefersTo, FpsOf;
    forall u: Id, fp: Fp ensures u !in Users(s, v, fp) {
      if u in Users(s, v, fp) {
        UserInRefs(s, n, v, fp, u);
      }
    }
    forall u | u in s.lines && u != v ensures LineEvicted(s, v, u, s.lines[u], n) {
      Untouched(s, n, v, u);
    }
    OnlyHeadsGrow(s, n, pg, v, s.lines.Keys - {v}, {});
    NoTotalGrowth(s, n, pg, v);
  }

  lemma {:induction false} TakenIsTakenOver(s: Store, v: Id, h: Id, u: Id, done: set<Fp>)
    requires s.lines.Keys == s.meta.Keys && AllUsed(s, v, done)
    ensures TakenIn(s, v, h, u, done) <==> TakenOver(s, v, h, u)
  {
    hide IsHead, Users;
    if fp: Fp :| IsHead(s, v, fp, h) && u in Users(s, v, fp) {
      assert Users(s, v, fp) != {};
    }
  }

  lemma {:induction false} RewrittenIsEvicted(s: Store, n: nat, max: nat, v: Id, ids: set<Id>,
                                              commands: map<Id, seq<ModifyCommand>>, done: set<Fp>,
                                              lines: map<Id, Cacheline>, u: Id)
    requires s.lines.Keys == s.meta.Keys && v in s.lines && FullPlan(s, n, max, v, ids, commands, done)
    requires ids == set r | r in s.meta[v].refs && r in s.lines
    requires Rewritten(s, commands, commands.Keys, lines) && u in s.lines && u != v
    ensures u in lines && LineEvicted(s, v, u, lines[u], n)
  {
    hide Inv, SmallStore, AllUsed, PlanFor, LineEvicted, ApplyAll, Applicable, Users;
    if u in commands {
      assert PlanFor(s, v, u, CommandsOf(commands, u), done);
      PlanEvicts(s, n, max, v, u, commands[u], done);
    } else {
      forall fp: Fp ensures u !in Users(s, v, fp) {
        NoCommandsNoUser(s, n, v, ids, commands, done, u, fp);
      }
      Untouched(s, n, v, u);
    }
  }

  lemma {:induction false} RemovedAll(s: Store, n: nat, max: nat, v: Id, refs0: map<Id, IndexData>,
                                      refs1: map<Id, IndexData>, refs: map<Id, IndexData>,
                                      commands: map<Id, seq<ModifyCommand>>, moved: map<Fp, Id>, done: set<Fp>,
                                      lines: map<Id, Cacheline>)
    requires s.lines.Keys == s.meta.Keys && v in s.lines && FullPlan(s, n, max, v, refs0.Keys, commands, done)
    requires UsersGiven(s, v, refs0) && TakenRefs(s, v, refs0, refs1, done) && MovedTo(s, v, moved, done)
    requires refs.Keys == refs1.Keys && forall u | u in refs :: refs[u] == refs1[u].(pages := refs[u].pages)
    requires Rewritten(s, commands, commands.Keys, lines)
    requires forall fp: Fp :: fp in done ==> Users(s, v, fp) != {}
    ensures Removed(s, n, v, refs, moved, lines)
  {
    hide Inv, SmallStore, Planned, LineEvicted, ApplyAll, Applicable, Users, IsHead, TakenIn, TakenOver, FpsOf, AllUsed;
    forall u | u in s.lines && u != v ensures LineEvicted(s, v, u, lines[u], n) {
      RewrittenIsEvicted(s, n, max, v, refs0.Keys, commands, done, lines, u);
    }
    forall h | h in refs
      ensures refs[h].timeStamp == s.meta[h].timeStamp
      ensures forall u: Id :: u in refs[h].refs <==> u in s.meta[h].refs || TakenOver(s, v, h, u)
    {
      forall u: Id ensures u in refs[h].refs <==> u in s.meta[h].refs || TakenOver(s, v, h, u) {
        TakenIsTakenOver(s, v, h, u, done);
      }
    }
    forall h | h in s.lines && h != v && h !in refs ensures forall u: Id :: !TakenOver(s, v, h, u) {
      OutsidersTakeNothing(s, n, v, h);
    }
    forall fp: Fp | Users(s, v, fp) != {} ensures fp in moved && IsHead(s, v, fp, moved[fp]) {
      UsedIsDone(s, v, done, fp);
    }
  }

  lemma {:induction false} UsedIsDone(s: Store, v: Id, done: set<Fp>, fp: Fp)
    requires AllUsed(s, v, done) && Users(s, v, fp) != {}
    ensures fp in done
  {
    hide Users;
  }

  lemma {:induction false} OutsidersTakeNothing(s: Store, n: nat, v: Id, h: Id)
    requires Inv(s, n) && s.lines.Keys == s.meta.Keys && v in s.lines && h in s.lines && h !in s.meta[v].refs
    ensures forall u: Id :: !TakenOver(s, v, h, u)
  {
    hide Inv, IsHead, Users;
    if u: Id, fp: Fp :| u != h && IsHead(s, v, fp, h) && u in Users(s, v, fp) {
      HeadIsUser(s, v, fp, h);
      UserInRefs(s, n, v, fp, h);
    }
  }
}
