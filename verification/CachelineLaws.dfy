/** What building and rewriting keep: lines stay well formed, stored bytes stay stored. */
module CachelineLaws {
  import opened Bits
  import opened Words
  import opened Cachelines
  import opened CachelineUpdates
  import opened Sets

  // ----- stored blocks and slots -------------------------------------------------------------

  predicate HasRef(infos: seq<BlockInfo>, fp: Fp) {
    exists i :: 0 <= i < |infos| && infos[i].compFp == fp && infos[i].kind == REF
  }

  function Range(n: nat): (r: set<nat>)
    ensures forall i: nat :: i in r <==> i < n
    ensures |r| == n
  {
    if n == 0 then {} else Range(n - 1) + {n - 1}
  }

  /** With a reference among the blocks there are fewer slots than blocks. */
  lemma {:induction false} SlotsFit(infos: seq<BlockInfo>, slots: nat, ref: nat)
    requires ref < |infos| && infos[ref].kind == REF
    requires forall s: nat | s < slots :: SlotUsed(infos, s)
    ensures slots < |infos|
  {
    var all := Range(|infos|);
    var used := set i | i in all && infos[i].kind == STORED;
    PlacesUsed(infos, slots, used);
    SubsetSize(used, all - {ref});
  }

  /** Each slot takes an index of its own out of the set. */
  lemma {:induction false} PlacesUsed(infos: seq<BlockInfo>, slots: nat, used: set<nat>)
    requires forall i | i in used :: i < |infos|
    requires forall i: nat | i < |infos| && infos[i].kind == STORED && infos[i].posIndex < slots :: i in used
    requires forall s: nat | s < slots :: SlotUsed(infos, s)
    ensures slots <= |used|
    decreases slots
  {
    if slots > 0 {
      var last: nat := slots - 1;
      assert SlotUsed(infos, last);
      var k :| 0 <= k < |infos| && infos[k].kind == STORED && infos[k].posIndex == last;
      PlacesUsed(infos, last, used - {k});
    }
  }

  /** A line with a reference has a free slot, and its layout marks where the used ones end. */
  lemma {:induction false} FreeSlot(line: Cacheline, n: nat, fp: Fp)
    requires WellFormed(line, n) && HasRef(line.infos, fp)
    ensures |line.data| < n && line.layout[|line.data|] == NO_LAYOUT
    ensures forall j | 0 <= j < |line.data| :: line.layout[j].len != NONE32
  {
    var r :| 0 <= r < |line.infos| && line.infos[r].compFp == fp && line.infos[r].kind == REF;
    SlotsFit(line.infos, |line.data|, r);
    forall j | 0 <= j < |line.data| ensures line.layout[j].len != NONE32 {
      SlotBelowTotal(line.data, j);
    }
  }

  lemma {:induction false} SlotBelowTotal(data: seq<seq<Byte>>, j: nat)
    requires j < |data|
    ensures |data[j]| <= Total(data) && Total(data[..j]) <= Total(data)
    decreases |data|
  {
    var front := data[..|data| - 1];
    if j < |front| {
      SlotBelowTotal(front, j);
      assert front[..j] == data[..j];
    }
  }

  // ----- one command -------------------------------------------------------------------------

  lemma {:induction false} RefsHaveFp(infos: seq<BlockInfo>, fp: Fp)
    requires HasRef(infos, fp)
    ensures HasFp(infos, fp)
  {
    var i :| 0 <= i < |infos| && infos[i].compFp == fp && infos[i].kind == REF;
    assert infos[i].compFp == fp;
  }

  /** All entries of a referenced fingerprint are references. */
  lemma {:induction false} RefGroup(infos: seq<BlockInfo>, fp: Fp, i: nat)
    requires GroupsAgree(infos) && HasRef(infos, fp) && i < |infos| && infos[i].compFp == fp
    ensures infos[i].kind == REF
  {
    var r :| 0 <= r < |infos| && infos[r].compFp == fp && infos[r].kind == REF;
    assert infos[r].compFp == infos[i].compFp;
  }

  /** Room for `extra` more bytes in the 32-bit length fields. */
  predicate Room(line: Cacheline, extra: nat) {
    MetadataLen(|line.infos|) + Total(line.data) + extra < W32
  }

  lemma {:induction false} AppendLaysOut(line: Cacheline, n: nat, fp: Fp, d: seq<Byte>)
    requires WellFormed(line, n) && HasRef(line.infos, fp) && Room(line, |d|)
    ensures HasFp(line.infos, fp) && |line.data| < |line.layout|
    ensures WellLaidOut(ApplyCommand(line, Append(fp, d)), n)
    ensures Total(line.data + [d]) == Total(line.data) + |d|
  {
    hide SlotsMatch, Coherent, GoodInfo, GroupsAgree, HasRef, HasFp, LayoutOf, Total;
    RefsHaveFp(line.infos, fp);
    FreeSlot(line, n, fp);
    LayoutGrows(line.data, d, n);
    TotalGrows(line.data, d);
    HeaderGrows(n, Total(line.data), |d|);
  }

  lemma {:induction false} HeaderGrows(n: nat, dataLen: nat, extra: nat)
    requires n < 256 && dataLen + extra < W32
    ensures HeaderOf(n, dataLen).(dataLen := Trunc32(HeaderOf(n, dataLen).dataLen + extra)) ==
            HeaderOf(n, dataLen + extra)
    ensures HeaderOf(n, dataLen).dataLen == dataLen
  {
  }

  /** What an append does to the blocks of a line whose `fp` entries were all references: entry `k` is stored in
      slot `slot`, the others become local, and the rest stays. */
  ghost predicate GroupStored(infos: seq<BlockInfo>, infos': seq<BlockInfo>, fp: Fp, k: nat, slot: nat) {
    && |infos| == |infos'| && k < |infos|
    && (forall i: nat | i < |infos| :: infos'[i].compFp == infos[i].compFp)
    && (forall i: nat | i < |infos| && infos[i].compFp != fp :: infos'[i] == infos[i])
    && (forall i: nat | i < |infos| && infos[i].compFp == fp :: infos[i].kind == REF)
    && infos[k].compFp == fp && infos'[k].kind == STORED && infos'[k].posIndex == slot && infos'[k].external == NONE64
    && (forall i: nat | i < |infos| && infos[i].compFp == fp && i != k ::
          infos'[i].kind == LOCAL && infos'[i].posIndex == NONE32 && infos'[i].external == NONE64)
  }

  lemma {:induction false} AppendStoresGroup(infos: seq<BlockInfo>, infos': seq<BlockInfo>, fp: Fp, slot: nat)
    requires GroupsAgree(infos) && HasRef(infos, fp) && HasFp(infos, fp) && slot < W32
    requires |infos'| == |infos| && forall i: nat | i < |infos'| :: infos'[i] == AppendedInfo(infos, fp, slot, i)
    ensures GroupStored(infos, infos', fp, FirstIndex(infos, fp), slot)
  {
    hide HasRef, HasFp;
    var k := FirstIndex(infos, fp);
    forall i: nat | i < |infos| ensures infos'[i].compFp == infos[i].compFp {
      assert infos'[i] == AppendedInfo(infos, fp, slot, i);
    }
    forall i: nat | i < |infos| && infos[i].compFp == fp ensures infos[i].kind == REF {
      hide GroupsAgree;
      RefGroup(infos, fp, i);
    }
  }

  lemma {:induction false} StoredSlotsMatch(line: Cacheline, r: Cacheline, fp: Fp, k: nat)
    requires SlotsMatch(line) && GroupStored(line.infos, r.infos, fp, k, |line.data|) && |r.data| == |line.data| + 1
    requires forall i | 0 <= i < |line.infos| :: GoodInfo(line.infos[i], |line.data|)
    ensures SlotsMatch(r)
    ensures forall i | 0 <= i < |r.infos| :: GoodInfo(r.infos[i], |r.data|)
  {
    var infos, infos' := line.infos, r.infos;
    forall s: nat | s < |r.data| ensures SlotUsed(infos', s) {
      if s < |line.data| {
        assert SlotUsed(infos, s);
        var i :| 0 <= i < |infos| && infos[i].kind == STORED && infos[i].posIndex == s;
        assert infos'[i] == infos[i];
      }
    }
    forall i | 0 <= i < |infos'| ensures GoodInfo(infos'[i], |r.data|) {
      assert GoodInfo(infos[i], |line.data|);
    }
  }

  lemma {:induction false} StoredCoherent(line: Cacheline, r: Cacheline, fp: Fp, k: nat)
    requires Coherent(line) && GroupStored(line.infos, r.infos, fp, k, |line.data|) && line.data <= r.data
    requires forall i | 0 <= i < |line.infos| :: GoodInfo(line.infos[i], |line.data|)
    ensures Coherent(r)
  {
    var infos, infos' := line.infos, r.infos;
    forall i, j | 0 <= i < |infos'| && 0 <= j < |infos'| && infos'[i].compFp == infos'[j].compFp &&
                  infos'[i].kind == STORED && infos'[j].kind == STORED
      ensures SlotData(r, infos'[i]) == SlotData(r, infos'[j])
    {
      if infos[i].compFp != fp {
        assert GoodInfo(infos[i], |line.data|) && GoodInfo(infos[j], |line.data|);
        assert SlotData(line, infos[i]) == SlotData(line, infos[j]);
      }
    }
  }

  lemma {:induction false} AppendKeeps(line: Cacheline, n: nat, fp: Fp, d: seq<Byte>)
    requires WellFormed(line, n) && HasRef(line.infos, fp) && Room(line, |d|)
    ensures HasFp(line.infos, fp) && |line.data| < |line.layout|
    ensures WellFormed(ApplyCommand(line, Append(fp, d)), n)
  {
    hide GroupsAgree, GoodInfo, SlotsMatch, Coherent, WellLaidOut;
    AppendLaysOut(line, n, fp, d);
    var r, k := ApplyCommand(line, Append(fp, d)), FirstIndex(line.infos, fp);
    LaidOutSizes(line, n);
    AppendStoresGroup(line.infos, r.infos, fp, |line.data|);
    AppendKeepsGroups(line.infos, r.infos, fp, k);
    StoredSlotsMatch(line, r, fp, k);
    StoredCoherent(line, r, fp, k);
  }

  lemma {:induction false} LaidOutSizes(line: Cacheline, n: nat)
    requires WellLaidOut(line, n)
    ensures |line.infos| == n < 256 && |line.data| <= n && |line.layout| == n
  {
  }

  lemma {:induction false} AppendKeepsGroups(infos: seq<BlockInfo>, infos': seq<BlockInfo>, fp: Fp, k: nat)
    requires |infos| == |infos'| && GroupsAgree(infos) && k < |infos|
    requires forall i: nat | i < |infos| ::
               infos'[i].compFp == infos[i].compFp && (infos[i].compFp != fp ==> infos'[i] == infos[i])
    requires forall i: nat | i < |infos| && infos[i].compFp == fp :: infos'[i].kind != REF
    requires infos'[k].compFp == fp && infos'[k].kind == STORED
    ensures GroupsAgree(infos')
  {
    forall i | 0 <= i < |infos'| && infos'[i].kind != REF ensures HasStored(infos', infos'[i].compFp) {
      if infos'[i].compFp != fp {
        assert HasStored(infos, infos[i].compFp);
        var j :| 0 <= j < |infos| && infos[j].kind == STORED && infos[j].compFp == infos[i].compFp;
        assert infos'[j] == infos[j];
      }
    }
  }

  lemma {:induction false} RedirectKeeps(line: Cacheline, n: nat, fp: Fp, target: Id)
    requires WellFormed(line, n) && HasRef(line.infos, fp) && HasFp(line.infos, fp) && target != NONE64
    ensures WellFormed(ApplyCommand(line, ModifyRef(fp, target)), n)
  {
    var r := ApplyCommand(line, ModifyRef(fp, target));
    var infos, infos' := line.infos, r.infos;
    forall i: nat | i < n
      ensures infos[i].compFp == fp ==> infos[i].kind == REF
      ensures infos'[i] == infos[i].(external := infos'[i].external)
      ensures infos'[i].external == if infos[i].compFp == fp then target else infos[i].external
    {
      if infos[i].compFp == fp { RefGroup(infos, fp, i); }
    }
    forall s: nat | s < |r.data| ensures SlotUsed(infos', s) {
      assert SlotUsed(infos, s);
      var i :| 0 <= i < |infos| && infos[i].kind == STORED && infos[i].posIndex == s;
      assert infos'[i].kind == STORED && infos'[i].posIndex == s;
    }
    forall i | 0 <= i < n && infos'[i].kind != REF ensures HasStored(infos', infos'[i].compFp) {
      assert HasStored(infos, infos[i].compFp);
      var j :| 0 <= j < |infos| && infos[j].kind == STORED && infos[j].compFp == infos[i].compFp;
      assert infos'[j].kind == STORED && infos'[j].compFp == infos'[i].compFp;
    }
    forall i, j | 0 <= i < n && 0 <= j < n && infos'[i].compFp == infos'[j].compFp &&
                  infos'[i].kind == STORED && infos'[j].kind == STORED
      ensures SlotData(r, infos'[i]) == SlotData(r, infos'[j])
    {
      assert SlotData(line, infos[i]) == SlotData(line, infos[j]);
    }
  }

  // ----- a list of commands ------------------------------------------------------------------

  function AppendedBytes(commands: seq<ModifyCommand>): nat {
    if commands == [] then 0
    else
      var last := commands[|commands| - 1];
      AppendedBytes(commands[..|commands| - 1]) + if last.Append? then |last.data| else 0
  }

  /** Command lists as an eviction builds them: one command a fingerprint, each for a reference of the line. */
  ghost predicate Rewrites(line: Cacheline, commands: seq<ModifyCommand>) {
    && (forall c | c in commands :: HasRef(line.infos, c.fp) && (c.ModifyRef? ==> c.newExternal != NONE64))
    && (forall k, l | 0 <= k < l < |commands| :: commands[k].fp != commands[l].fp)
  }

  predicate Mentions(commands: seq<ModifyCommand>, fp: Fp) {
    exists k :: 0 <= k < |commands| && commands[k].fp == fp
  }

  /** What becomes of block `i`: nothing, or what the one command for its fingerprint says. */
  ghost predicate InfoAfter(line: Cacheline, r: Cacheline, commands: seq<ModifyCommand>, i: nat)
    requires i < |line.infos| == |r.infos|
  {
    var a, b := line.infos[i], r.infos[i];
    && b.compFp == a.compFp && b.rawFp == a.rawFp && b.rawLen == a.rawLen
    && (!Mentions(commands, a.compFp) ==> b == a)
    && forall c | c in commands && c.fp == a.compFp ::
         match c
         case ModifyRef(_, target) => b == a.(external := target)
         case Append(_, d) =>
           b.external == NONE64 &&
           if FirstAt(line.infos, i) then b.kind == STORED && b.posIndex < |r.data| && r.data[b.posIndex] == d
           else b.kind == LOCAL && b.posIndex == NONE32
  }

  /** Block `i` is the first with its fingerprint. */
  predicate FirstAt(infos: seq<BlockInfo>, i: nat)
    requires i < |infos|
  {
    forall j | 0 <= j < i :: infos[j].compFp != infos[i].compFp
  }

  lemma {:induction false} RewritesPrefix(line: Cacheline, commands: seq<ModifyCommand>)
    requires Rewrites(line, commands) && commands != []
    ensures Rewrites(line, commands[..|commands| - 1])
    ensures var last := commands[|commands| - 1];
            HasRef(line.infos, last.fp) && !Mentions(commands[..|commands| - 1], last.fp)
  {
    var front, last := commands[..|commands| - 1], commands[|commands| - 1];
    assert last in commands;
    forall c | c in front ensures c in commands { }
  }

  /** References not mentioned so far are still there. */
  lemma {:induction false} RefsStay(line: Cacheline, r: Cacheline, commands: seq<ModifyCommand>, fp: Fp)
    requires |line.infos| == |r.infos| && HasRef(line.infos, fp) && !Mentions(commands, fp)
    requires forall i: nat | i < |line.infos| :: InfoAfter(line, r, commands, i)
    ensures HasRef(r.infos, fp)
  {
    var i :| 0 <= i < |line.infos| && line.infos[i].compFp == fp && line.infos[i].kind == REF;
    assert InfoAfter(line, r, commands, i);
    assert r.infos[i] == line.infos[i];
  }

  lemma {:induction false} InfoAfterOneMore(line: Cacheline, m: Cacheline, r: Cacheline, front: seq<ModifyCommand>,
                                            last: ModifyCommand, i: nat)
    requires i < |line.infos| == |m.infos| == |r.infos|
    requires InfoAfter(line, m, front, i) && !Mentions(front, last.fp)
    requires forall j | 0 <= j < |m.infos| :: m.infos[j].compFp == line.infos[j].compFp
    requires HasFp(m.infos, last.fp) && (last.Append? ==> |m.data| < |m.layout| && |m.data| < W32)
    requires r == ApplyCommand(m, last)
    ensures InfoAfter(line, r, front + [last], i)
  {
    var a, b, c := line.infos[i], m.infos[i], r.infos[i];
    assert m.data <= r.data;
    forall d | d in front + [last] ensures d in front || d == last { }
    if a.compFp == last.fp {
      assert forall d | d in front :: d.fp != last.fp by {
        forall d | d in front ensures d.fp != last.fp {
          var k :| 0 <= k < |front| && front[k] == d;
        }
      }
      assert (front + [last])[|front|].fp == last.fp;
      assert b == a;
      if last.Append? {
        assert FirstAt(line.infos, i) <==> i == FirstIndex(m.infos, last.fp);
      }
    } else {
      assert c == b;
      if Mentions(front, a.compFp) {
        var k :| 0 <= k < |front| && front[k].fp == a.compFp;
        assert (front + [last])[k].fp == a.compFp;
      }
    }
  }

  lemma {:induction false} AppendsBound(line: Cacheline, front: seq<ModifyCommand>, last: ModifyCommand)
    requires Applicable(line, front) && HasFp(line.infos, last.fp)
    requires last.Append? ==> |ApplyAll(line, front).data| < |line.layout|
    ensures Applicable(line, front + [last])
    ensures HasFp(ApplyAll(line, front).infos, last.fp)
    ensures ApplyAll(line, front + [last]) == ApplyCommand(ApplyAll(line, front), last)
  {
    var commands := front + [last];
    assert commands[..|commands| - 1] == front;
    SameFps(line.infos, ApplyAll(line, front).infos, last.fp);
  }

  /** One more command on a line rewritten so far. */
  lemma {:induction false} CommandKeeps(m: Cacheline, n: nat, last: ModifyCommand)
    requires WellFormed(m, n) && HasRef(m.infos, last.fp)
    requires last.Append? ==> Room(m, |last.data|)
    requires last.ModifyRef? ==> last.newExternal != NONE64
    ensures HasFp(m.infos, last.fp) && |m.data| < |m.layout| && |m.data| < W32
    ensures var r := ApplyCommand(m, last);
            WellFormed(r, n) && m.data <= r.data &&
            Total(r.data) == Total(m.data) + if last.Append? then |last.data| else 0
  {
    hide GroupsAgree, GoodInfo, SlotsMatch, Coherent;
    FreeSlot(m, n, last.fp);
    RefsHaveFp(m.infos, last.fp);
    match last
    case Append(fp, d) =>
      AppendKeeps(m, n, fp, d);
      TotalGrows(m.data, d);
    case ModifyRef(fp, target) =>
      RedirectKeeps(m, n, fp, target);
  }

  /** No stored block is longer than `max`. */
  ghost predicate AllSmall(data: seq<seq<Byte>>, max: nat) {
    forall d | d in data :: |d| <= max
  }

  lemma {:induction false} TotalOfSmall(data: seq<seq<Byte>>, max: nat)
    requires AllSmall(data, max)
    ensures Total(data) <= |data| * max
    decreases |data|
  {
    if data != [] {
      var k := |data| - 1;
      assert forall d | d in data[..k] :: d in data;
      TotalOfSmall(data[..k], max);
      Product(k, max);
    }
  }

  lemma {:induction false} Product(k: nat, len: nat)
    ensures (k + 1) * len == k * len + len
  {
  }

  /** A free slot leaves room for one more small block. */
  lemma {:induction false} RoomForOne(line: Cacheline, n: nat, fp: Fp, max: nat, d: seq<Byte>)
    requires WellFormed(line, n) && HasRef(line.infos, fp) && AllSmall(line.data, max) && |d| <= max
    requires MetadataLen(n) + n * max < W32
    ensures Room(line, |d|)
  {
    hide Total, SlotsMatch, GroupsAgree, Coherent, WellLaidOut, HasRef, AllSmall, GoodInfo;
    FreeSlot(line, n, fp);
    TotalOfSmall(line.data, max);
    LaidOutSizes(line, n);
    Multiples(|line.data|, n, max);
  }

  lemma {:induction false} Multiples(k: nat, n: nat, max: nat)
    requires k < n
    ensures k * max + max <= n * max
    decreases n
  {
    if k + 1 == n {
      assert n * max == k * max + max;
    } else {
      Multiples(k, n - 1, max);
      assert n * max == (n - 1) * max + max;
    }
  }

  lemma {:induction false} NotMore(k: nat, n: nat, max: nat)
    requires k <= n
    ensures k * max <= n * max
  {
    if k < n { Multiples(k, n, max); }
  }

  ghost predicate SmallCommands(commands: seq<ModifyCommand>, max: nat) {
    forall c | c in commands :: c.Append? ==> |c.data| <= max
  }

  /** The command lists of an eviction always apply, and rewrite a well-formed line to a well-formed line in which
      exactly the mentioned references have changed, as told; stored bytes stay where they are. */
  lemma {:induction false} RewriteKeeps(line: Cacheline, n: nat, commands: seq<ModifyCommand>, max: nat)
    requires WellFormed(line, n) && Rewrites(line, commands)
    requires AllSmall(line.data, max) && SmallCommands(commands, max) && MetadataLen(n) + n * max < W32
    ensures Applicable(line, commands)
    ensures var r := ApplyAll(line, commands);
            && WellFormed(r, n) && line.data <= r.data && |r.infos| == |line.infos| && AllSmall(r.data, max)
            && Total(r.data) == Total(line.data) + AppendedBytes(commands)
            && forall i: nat | i < |line.infos| :: InfoAfter(line, r, commands, i)
    decreases |commands|
  {
    hide WellFormed, Rewrites, InfoAfter, HasRef, HasFp, AllSmall, SmallCommands;
    if commands == [] {
      NothingRewritten(line, n);
    } else {
      var front, last := commands[..|commands| - 1], commands[|commands| - 1];
      assert commands == front + [last];
      RewritesPrefix(line, commands);
      SmallPrefix(commands, max);
      RewriteKeeps(line, n, front, max);
      var m := ApplyAll(line, front);
      RefsStay(line, m, front, last.fp);
      LastCommand(line, commands);
      if last.Append? { RoomForOne(m, n, last.fp, max, last.data); }
      CommandKeeps(m, n, last);
      RefsHaveFp(line.infos, last.fp);
      AppendsBound(line, front, last);
      var r := ApplyAll(line, commands);
      StillSmall(m.data, max, last);
      forall i: nat | i < |line.infos| ensures InfoAfter(line, r, commands, i) {
        InfoAfterOneMore(line, m, r, front, last, i);
      }
    }
  }

  lemma {:induction false} StillSmall(data: seq<seq<Byte>>, max: nat, last: ModifyCommand)
    requires AllSmall(data, max) && (last.Append? ==> |last.data| <= max)
    ensures last.Append? ==> AllSmall(data + [last.data], max)
  {
  }

  lemma {:induction false} SmallPrefix(commands: seq<ModifyCommand>, max: nat)
    requires SmallCommands(commands, max) && commands != []
    ensures SmallCommands(commands[..|commands| - 1], max)
    ensures var last := commands[|commands| - 1]; last.Append? ==> |last.data| <= max
  {
    assert commands[|commands| - 1] in commands;
    assert forall c | c in commands[..|commands| - 1] :: c in commands;
  }

  lemma {:induction false} LastCommand(line: Cacheline, commands: seq<ModifyCommand>)
    requires Rewrites(line, commands) && commands != []
    ensures var last := commands[|commands| - 1]; last.ModifyRef? ==> last.newExternal != NONE64
  {
    assert commands[|commands| - 1] in commands;
  }

  lemma {:induction false} NothingRewritten(line: Cacheline, n: nat)
    requires WellFormed(line, n)
    ensures |line.data| <= |line.layout|
    ensures forall i: nat | i < |line.infos| :: InfoAfter(line, line, [], i)
  {
  }

  // ----- a fresh line ------------------------------------------------------------------------

  /** Blocks of one fingerprint were all found in the cache, in one line, or none was and they hold the same bytes. */
  ghost predicate Consistent(blocks: seq<DataBlock>) {
    && (forall i | 0 <= i < |blocks| && blocks[i].compDuplicated :: blocks[i].external != NONE64)
    && (forall i, j | 0 <= i < |blocks| && 0 <= j < |blocks| && blocks[i].compFp == blocks[j].compFp ::
          && blocks[i].compDuplicated == blocks[j].compDuplicated
          && (if blocks[i].compDuplicated then blocks[i].external == blocks[j].external
              else blocks[i].compData == blocks[j].compData))
  }

  /** The slot of a fresh block: how many fresh blocks precede it. */
  function SlotOf(blocks: seq<DataBlock>, i: nat): nat
    requires i < |blocks|
  {
    |FreshData(blocks[..i])|
  }

  lemma {:induction false} FreshSlot(blocks: seq<DataBlock>, i: nat)
    requires i < |blocks|
    ensures InfosFor(blocks)[i] == InfoFor(blocks[i], SlotOf(blocks, i))
    ensures !blocks[i].compDuplicated ==>
              SlotOf(blocks, i) < |FreshData(blocks)| && FreshData(blocks)[SlotOf(blocks, i)] == blocks[i].compData
    decreases |blocks|
  {
    var front := blocks[..|blocks| - 1];
    if i < |front| {
      FreshSlot(front, i);
      assert front[..i] == blocks[..i];
    }
  }

  lemma {:induction false} SlotsAscend(blocks: seq<DataBlock>, i: nat, j: nat)
    requires i < j < |blocks| && !blocks[i].compDuplicated
    ensures SlotOf(blocks, i) < SlotOf(blocks, j)
    decreases j
  {
    assert blocks[..i + 1][..i] == blocks[..i];
    if j > i + 1 {
      SlotsAscend(blocks, i, j - 1);
      assert blocks[..j][..j - 1] == blocks[..j - 1];
    }
  }

  lemma {:induction false} SlotTaken(blocks: seq<DataBlock>, s: nat) returns (i: nat)
    requires s < |FreshData(blocks)|
    ensures i < |blocks| && !blocks[i].compDuplicated && SlotOf(blocks, i) == s
    decreases |blocks|
  {
    var front := blocks[..|blocks| - 1];
    if s < |FreshData(front)| {
      i := SlotTaken(front, s);
      assert front[..i] == blocks[..i];
    } else {
      i := |blocks| - 1;
    }
  }

  lemma {:induction false} FreshSlots(blocks: seq<DataBlock>, infos: seq<BlockInfo>, data: seq<seq<Byte>>)
    requires infos == InfosFor(blocks) && data == FreshData(blocks)
    ensures forall i: nat | i < |blocks| :: infos[i] == InfoFor(blocks[i], SlotOf(blocks, i))
    ensures forall i: nat | i < |blocks| && !blocks[i].compDuplicated ::
              SlotOf(blocks, i) < |data| && data[SlotOf(blocks, i)] == blocks[i].compData
  {
    hide SlotOf, InfoFor, InfosFor, FreshData;
    forall i: nat | i < |blocks|
      ensures infos[i] == InfoFor(blocks[i], SlotOf(blocks, i))
      ensures !blocks[i].compDuplicated ==>
                SlotOf(blocks, i) < |data| && data[SlotOf(blocks, i)] == blocks[i].compData
    {
      FreshSlot(blocks, i);
    }
  }

  lemma {:induction false} FreshSlotsMatch(blocks: seq<DataBlock>, infos: seq<BlockInfo>, slots: nat)
    requires |blocks| < 256 && infos == InfosFor(blocks) && slots == |FreshData(blocks)|
    requires forall i: nat | i < |blocks| :: infos[i] == InfoFor(blocks[i], SlotOf(blocks, i))
    ensures forall i: nat, j: nat | i < j < |blocks| && !blocks[i].compDuplicated ::
              SlotOf(blocks, i) < SlotOf(blocks, j)
    ensures forall s: nat | s < slots :: SlotUsed(infos, s)
  {
    hide SlotOf, InfosFor, FreshData;
    forall i: nat, j: nat | i < j < |blocks| && !blocks[i].compDuplicated
      ensures SlotOf(blocks, i) < SlotOf(blocks, j)
    {
      SlotsAscend(blocks, i, j);
    }
    forall s: nat | s < slots ensures SlotUsed(infos, s) {
      var i := SlotTaken(blocks, s);
      assert infos[i] == InfoFor(blocks[i], SlotOf(blocks, i));
    }
  }

  /** A consistent batch becomes a well-formed line that stores exactly the fresh blocks. */
  lemma {:induction false} FreshLineWellFormed(blocks: seq<DataBlock>, n: nat)
    requires |blocks| == n < 256 && Consistent(blocks) && MetadataLen(n) + Total(FreshData(blocks)) < W32
    ensures WellFormed(LineOf(blocks), n)
    ensures forall i: nat | i < n && !blocks[i].compDuplicated ::
              SlotData(LineOf(blocks), LineOf(blocks).infos[i]) == blocks[i].compData
  {
    hide FreshData, InfosFor, LayoutOf, Total, SlotOf;
    var line := LineOf(blocks);
    var infos := line.infos;
    FreshSlots(blocks, infos, line.data);
    FreshSlotsMatch(blocks, infos, |line.data|);
    forall i: nat | i < n
      ensures GoodInfo(infos[i], |line.data|)
      ensures infos[i].kind == if blocks[i].compDuplicated then REF else STORED
      ensures !blocks[i].compDuplicated ==> infos[i].posIndex == SlotOf(blocks, i)
      ensures !blocks[i].compDuplicated ==> SlotData(line, infos[i]) == blocks[i].compData
    {
      assert infos[i] == InfoFor(blocks[i], SlotOf(blocks, i));
    }
    assert SlotsMatch(line);
    forall i | 0 <= i < n && infos[i].kind != REF ensures HasStored(infos, infos[i].compFp) {
      assert infos[i].kind == STORED;
    }
    assert GroupsAgree(infos);
    assert Coherent(line);
  }
}
