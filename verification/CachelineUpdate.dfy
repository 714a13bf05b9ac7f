/** Rewriting one line by the commands an eviction builds for it: the loop of `modifyCacheline`
    (src/ssd_proxy.cpp:347-393). */
module CachelineUpdates {
  import opened Bits
  import opened Words
  import opened Cachelines

  datatype ModifyCommand =
    | Append(fp: Fp, data: seq<Byte>)
    | ModifyRef(fp: Fp, newExternal: Id)

  /** The indices of the blocks with fingerprint `fp`, ascending. */
  function IndexesOf(infos: seq<BlockInfo>, fp: Fp): seq<nat> {
    if infos == [] then []
    else
      var n := |infos| - 1;
      IndexesOf(infos[..n], fp) + if infos[n].compFp == fp then [n] else []
  }

  predicate HasFp(infos: seq<BlockInfo>, fp: Fp) {
    exists i :: 0 <= i < |infos| && infos[i].compFp == fp
  }

  lemma {:induction false} HasFpLater(infos: seq<BlockInfo>, fp: Fp)
    requires HasFp(infos, fp) && infos[0].compFp != fp
    ensures HasFp(infos[1..], fp)
  {
    var i :| 0 <= i < |infos| && infos[i].compFp == fp;
    assert infos[1..][i - 1].compFp == fp;
  }

  function FirstIndex(infos: seq<BlockInfo>, fp: Fp): (k: nat)
    requires HasFp(infos, fp)
    ensures k < |infos| && infos[k].compFp == fp
    ensures forall i | 0 <= i < k :: infos[i].compFp != fp
    decreases |infos|
  {
    if infos[0].compFp == fp then 0
    else
      HasFpLater(infos, fp);
      1 + FirstIndex(infos[1..], fp)
  }

  /** `idxs` lists exactly the indices with fingerprint `fp`, ascending. */
  ghost predicate ListsFp(idxs: seq<nat>, infos: seq<BlockInfo>, fp: Fp) {
    && (forall k | 0 <= k < |idxs| :: idxs[k] < |infos| && infos[idxs[k]].compFp == fp)
    && (forall k, l | 0 <= k < l < |idxs| :: idxs[k] < idxs[l])
    && (forall i: nat | i < |infos| && infos[i].compFp == fp :: i in idxs)
  }

  lemma {:induction false} IndexesAre(infos: seq<BlockInfo>, fp: Fp)
    ensures ListsFp(IndexesOf(infos, fp), infos, fp)
    decreases |infos|
  {
    if infos != [] {
      var n := |infos| - 1;
      IndexesAre(infos[..n], fp);
      var before, idxs := IndexesOf(infos[..n], fp), IndexesOf(infos, fp);
      forall i: nat | i < |infos| && infos[i].compFp == fp ensures i in idxs {
        if i < n { assert infos[..n][i].compFp == fp; }
      }
      forall k | 0 <= k < |before| ensures before[k] < n && infos[before[k]].compFp == fp { }
    }
  }

  lemma {:induction false} FirstOfIndexes(infos: seq<BlockInfo>, fp: Fp)
    ensures HasFp(infos, fp) <==> IndexesOf(infos, fp) != []
    ensures HasFp(infos, fp) ==> IndexesOf(infos, fp)[0] == FirstIndex(infos, fp)
  {
    hide IndexesOf;
    IndexesAre(infos, fp);
    var idxs := IndexesOf(infos, fp);
    if HasFp(infos, fp) {
      assert FirstIndex(infos, fp) in idxs;
    }
    if idxs != [] {
      assert infos[idxs[0]].compFp == fp;
    }
  }

  /** A block after the bytes of its fingerprint were appended in slot `slot`. */
  function AppendedInfo(infos: seq<BlockInfo>, fp: Fp, slot: nat, i: nat): BlockInfo
    requires HasFp(infos, fp) && i < |infos|
  {
    if infos[i].compFp != fp then infos[i]
    else if i == FirstIndex(infos, fp) then infos[i].(posIndex := Trunc32(slot), external := NONE64, kind := STORED)
    else infos[i].(external := NONE64, posIndex := NONE32, kind := LOCAL)
  }

  function RedirectedInfo(info: BlockInfo, fp: Fp, newExternal: Id): BlockInfo {
    if info.compFp == fp then info.(external := newExternal) else info
  }

  function ApplyCommand(line: Cacheline, cmd: ModifyCommand): Cacheline
    requires HasFp(line.infos, cmd.fp)
    requires cmd.Append? ==> |line.data| < |line.layout|
  {
    match cmd
    case Append(fp, d) =>
      Cacheline(line.header.(dataLen := Trunc32(line.header.dataLen + |d|)),
                seq(|line.infos|, i requires 0 <= i < |line.infos| =>
                  AppendedInfo(line.infos, fp, |line.data|, i)),
                line.layout[|line.data| := Layout(line.header.dataLen, Trunc32(|d|))],
                line.data + [d])
    case ModifyRef(fp, newExternal) =>
      line.(infos := seq(|line.infos|, i requires 0 <= i < |line.infos| =>
              RedirectedInfo(line.infos[i], fp, newExternal)))
  }

  /** How many commands append. */
  function Appends(commands: seq<ModifyCommand>): nat {
    if commands == [] then 0
    else Appends(commands[..|commands| - 1]) + if commands[|commands| - 1].Append? then 1 else 0
  }

  /** Every fingerprint occurs in the line, and there is a free slot for every append. */
  ghost predicate Applicable(line: Cacheline, commands: seq<ModifyCommand>) {
    && (forall c | c in commands :: HasFp(line.infos, c.fp))
    && |line.data| + Appends(commands) <= |line.layout|
  }

  /** Applying commands keeps the fingerprints and uses one slot per append. */
  function ApplyAll(line: Cacheline, commands: seq<ModifyCommand>): (r: Cacheline)
    requires Applicable(line, commands)
    ensures |r.infos| == |line.infos| && |r.layout| == |line.layout|
    ensures |r.data| == |line.data| + Appends(commands)
    ensures forall i | 0 <= i < |r.infos| :: r.infos[i].compFp == line.infos[i].compFp
    decreases |commands|
  {
    if commands == [] then line
    else
      var front, last := commands[..|commands| - 1], commands[|commands| - 1];
      assert last in commands;
      var before := ApplyAll(line, front);
      SameFps(line.infos, before.infos, last.fp);
      ApplyCommand(before, last)
  }

  lemma {:induction false} SameFps(a: seq<BlockInfo>, b: seq<BlockInfo>, fp: Fp)
    requires |a| == |b| && forall i | 0 <= i < |b| :: b[i].compFp == a[i].compFp
    ensures HasFp(a, fp) == HasFp(b, fp)
    ensures IndexesOf(a, fp) == IndexesOf(b, fp)
    ensures HasFp(a, fp) ==> FirstIndex(a, fp) == FirstIndex(b, fp)
    decreases |a|
  {
    if a != [] {
      SameFps(a[..|a| - 1], b[..|b| - 1], fp);
    }
    FirstOfIndexes(a, fp);
    FirstOfIndexes(b, fp);
  }

  // ----- the loops ---------------------------------------------------------------------------

  /** Which blocks have which fingerprint. */
  method GroupByFp(infos: seq<BlockInfo>) returns (groups: map<Fp, seq<nat>>)
    ensures forall fp: Fp :: (fp in groups) == HasFp(infos, fp)
    ensures forall fp: Fp | fp in groups :: groups[fp] == IndexesOf(infos, fp)
  {
    groups := map[];
    var i := 0;
    while i < |infos|
      invariant 0 <= i <= |infos|
      invariant forall fp: Fp :: fp in groups ==> groups[fp] == IndexesOf(infos[..i], fp) != []
      invariant forall fp: Fp :: fp !in groups ==> IndexesOf(infos[..i], fp) == []
    {
      var fp := infos[i].compFp;
      assert infos[..i + 1][..i] == infos[..i];
      groups := groups[fp := (if fp in groups then groups[fp] else []) + [i]];
      i := i + 1;
    }
    assert infos[..i] == infos;
    forall fp: Fp ensures HasFp(infos, fp) <==> IndexesOf(infos, fp) != [] {
      FirstOfIndexes(infos, fp);
    }
  }

  method Redirect(infos: seq<BlockInfo>, idxs: seq<nat>, fp: Fp, newExternal: Id) returns (r: seq<BlockInfo>)
    requires idxs == IndexesOf(infos, fp)
    ensures |r| == |infos| && forall i | 0 <= i < |r| :: r[i] == RedirectedInfo(infos[i], fp, newExternal)
  {
    hide IndexesOf;
    IndexesAre(infos, fp);
    r := infos;
    var k := 0;
    while k < |idxs|
      invariant 0 <= k <= |idxs| && |r| == |infos|
      invariant forall i: nat | i < |r| ::
                  r[i] == if i in idxs[..k] then infos[i].(external := newExternal) else infos[i]
    {
      assert idxs[..k + 1] == idxs[..k] + [idxs[k]];
      r := r[idxs[k] := r[idxs[k]].(external := newExternal)];
      k := k + 1;
    }
    assert idxs[..k] == idxs;
  }

  method AppendInto(infos: seq<BlockInfo>, idxs: seq<nat>, fp: Fp, slot: nat) returns (r: seq<BlockInfo>)
    requires HasFp(infos, fp) && idxs == IndexesOf(infos, fp)
    ensures |r| == |infos| && forall i | 0 <= i < |r| :: r[i] == AppendedInfo(infos, fp, slot, i)
  {
    hide IndexesOf, HasFp;
    IndexesAre(infos, fp);
    FirstOfIndexes(infos, fp);
    var first := idxs[0];
    r := infos[first := infos[first].(posIndex := Trunc32(slot), external := NONE64, kind := STORED)];
    var k := 1;
    while k < |idxs|
      invariant 1 <= k <= |idxs| && |r| == |infos|
      invariant forall i: nat | i < |r| :: r[i] ==
                  if i == first then infos[i].(posIndex := Trunc32(slot), external := NONE64, kind := STORED)
                  else if i in idxs[..k] then infos[i].(external := NONE64, posIndex := NONE32, kind := LOCAL)
                  else infos[i]
    {
      assert idxs[..k + 1] == idxs[..k] + [idxs[k]];
      r := r[idxs[k] := r[idxs[k]].(external := NONE64, posIndex := NONE32, kind := LOCAL)];
      k := k + 1;
    }
    assert idxs[..k] == idxs;
  }

  /** The commands in turn, with the free slot found once and counted up. */
  method UpdateLine(line: Cacheline, commands: seq<ModifyCommand>) returns (r: Cacheline)
    requires Applicable(line, commands)
    requires |line.data| < |line.layout| && line.layout[|line.data|].len == NONE32
    requires forall j | 0 <= j < |line.data| :: line.layout[j].len != NONE32
    ensures r == ApplyAll(line, commands)
  {
    var groups := GroupByFp(line.infos);
    var layoutIdx := 0;
    while line.layout[layoutIdx].len != NONE32
      invariant 0 <= layoutIdx <= |line.data|
      decreases |line.data| - layoutIdx
    {
      layoutIdx := layoutIdx + 1;
    }
    assert layoutIdx == |line.data|;
    r := line;
    var k := 0;
    while k < |commands|
      invariant 0 <= k <= |commands| && Applicable(line, commands[..k]) && r == ApplyAll(line, commands[..k])
      invariant layoutIdx == |r.data|
    {
      var cmd := commands[k];
      ApplicablePrefix(line, commands, k + 1);
      assert commands[..k + 1][..k] == commands[..k];
      r := RunCommand(r, groups[cmd.fp], cmd, layoutIdx, line.infos);
      if cmd.Append? { layoutIdx := layoutIdx + 1; }
      k := k + 1;
    }
    assert commands[..k] == commands;
  }

  lemma {:induction false} ApplicablePrefix(line: Cacheline, commands: seq<ModifyCommand>, k: nat)
    requires Applicable(line, commands) && k <= |commands|
    ensures Applicable(line, commands[..k])
    decreases |commands| - k
  {
    if k < |commands| {
      ApplicablePrefix(line, commands, k + 1);
      assert commands[..k + 1][..k] == commands[..k];
    } else {
      assert commands[..k] == commands;
    }
  }

  method RunCommand(line: Cacheline, idxs: seq<nat>, cmd: ModifyCommand, layoutIdx: nat, ghost original: seq<BlockInfo>)
    returns (r: Cacheline)
    requires HasFp(line.infos, cmd.fp) && (cmd.Append? ==> |line.data| < |line.layout|)
    requires idxs == IndexesOf(original, cmd.fp) && layoutIdx == |line.data|
    requires |line.infos| == |original| && forall i | 0 <= i < |original| :: line.infos[i].compFp == original[i].compFp
    ensures r == ApplyCommand(line, cmd)
  {
    SameFps(original, line.infos, cmd.fp);
    match cmd
    case ModifyRef(fp, newExternal) =>
      var infos := Redirect(line.infos, idxs, fp, newExternal);
      r := line.(infos := infos);
    case Append(fp, d) =>
      var infos := AppendInto(line.infos, idxs, fp, layoutIdx);
      r := Cacheline(line.header.(dataLen := Trunc32(line.header.dataLen + |d|)), infos,
                     line.layout[layoutIdx := Layout(line.header.dataLen, Trunc32(|d|))], line.data + [d]);
  }
}
