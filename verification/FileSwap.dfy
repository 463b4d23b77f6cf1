/** Installing downloaded geodata files over the old ones, with rollback. */
module FileSwap {

  type Path = nat

  type Content = nat

  type Files = map<Path, Content>

  /** A downloaded file waiting under a temporary name. */
  datatype Stage = Stage(target: Path, temp: Path)

  datatype Swap = Swap(target: Path, backup: Path, hadOriginal: bool)

  datatype Outcome = Done | NotExist | Failed

  datatype SwapResult = Swapped(swap: Swap) | SwapError(restored: bool)

  datatype TxResult = Tx(swaps: seq<Swap>) | TxError(restored: bool)

  function Targets(assets: seq<Stage>): set<Path> {
    set i | 0 <= i < |assets| :: assets[i].target
  }

  function Temps(assets: seq<Stage>): set<Path> {
    set i | 0 <= i < |assets| :: assets[i].temp
  }

  function Backups(swaps: seq<Swap>): set<Path> {
    set i | 0 <= i < |swaps| :: swaps[i].backup
  }

  function Replaced(swaps: seq<Swap>): set<Path> {
    set i | 0 <= i < |swaps| :: swaps[i].target
  }

  /** What undoing one swap does to the disk when no operation fails. */
  function RollbackOne(f: Files, s: Swap): Files {
    if s.hadOriginal && s.backup in f
    then (f - {s.target})[s.target := f[s.backup]] - (if s.backup == s.target then {} else {s.backup})
    else f - {s.target, s.backup}
  }

  /** Undoing swaps, the latest first. */
  function RollbackAll(f: Files, swaps: seq<Swap>): Files
    decreases |swaps|
  {
    if swaps == [] then f
    else RollbackAll(RollbackOne(f, swaps[|swaps| - 1]), swaps[..|swaps| - 1])
  }


  /** The disk after one successful swap. */
  function SwapSpec(f: Files, asset: Stage, s: Swap): Files
    requires asset.temp in f
  {
    (if s.hadOriginal && asset.target in f then f[s.backup := f[asset.target]] else f)
      [asset.target := f[asset.temp]] - {asset.temp}
  }

  /** The disk at every step of a transaction that installed `assets`. */
  ghost predicate Installed(f: Files, assets: seq<Stage>, swaps: seq<Swap>, g: Files)
    requires |assets| == |swaps|
    decreases |assets|
  {
    if assets == [] then f == g
    else
      var n := |assets| - 1;
      exists h: Files ::
        Installed(f, assets[..n], swaps[..n], h) && SwapStep(h, assets[n], swaps[n], g)
  }

  /** One link of that chain: the backup name is free, and recorded truthfully. */
  ghost predicate SwapStep(f: Files, asset: Stage, s: Swap, g: Files) {
    && asset.temp in f
    && s.target == asset.target
    && s.backup !in f
    && (s.hadOriginal <==> asset.target in f)
    && g == SwapSpec(f, asset, s)
  }

  /** No target is a temporary file, and no backup got the name of a temporary file still to be used. */
  ghost predicate Apart(assets: seq<Stage>, swaps: seq<Swap>)
    requires |assets| == |swaps|
  {
    && Targets(assets) !! Temps(assets)
    && forall i, j | 0 <= i < j < |assets| :: swaps[i].backup != assets[j].temp
  }

  lemma ApartPrefix(assets: seq<Stage>, swaps: seq<Swap>)
    requires assets != [] && |assets| == |swaps| && Apart(assets, swaps)
    ensures var n := |assets| - 1;
            && Apart(assets[..n], swaps[..n])
            && assets[n].temp !in Targets(assets) && assets[n].temp !in Backups(swaps[..n])
            && assets[n].temp != assets[n].target
  {
    var n := |assets| - 1;
    Prefixes(assets, swaps);
    assert forall i | 0 <= i < n :: swaps[..n][i] == swaps[i] && assets[..n][i] == assets[i];
    assert assets[n].temp in Temps(assets) && assets[n].target in Targets(assets);
  }

  lemma Prefixes(assets: seq<Stage>, swaps: seq<Swap>)
    requires assets != [] && |swaps| == |assets|
    ensures Targets(assets) == Targets(assets[..|assets| - 1]) + {assets[|assets| - 1].target}
    ensures Temps(assets) == Temps(assets[..|assets| - 1]) + {assets[|assets| - 1].temp}
    ensures Backups(swaps) == Backups(swaps[..|swaps| - 1]) + {swaps[|swaps| - 1].backup}
    ensures Replaced(swaps) == Replaced(swaps[..|swaps| - 1]) + {swaps[|swaps| - 1].target}
  {
    var n := |assets| - 1;
    forall x | x in Targets(assets) ensures x in Targets(assets[..n]) + {assets[n].target} {
      var i :| 0 <= i < |assets| && assets[i].target == x;
      assert i < n ==> assets[..n][i].target == x;
    }
    forall x | x in Temps(assets) ensures x in Temps(assets[..n]) + {assets[n].temp} {
      var i :| 0 <= i < |assets| && assets[i].temp == x;
      assert i < n ==> assets[..n][i].temp == x;
    }
    forall x | x in Backups(swaps) ensures x in Backups(swaps[..n]) + {swaps[n].backup} {
      var i :| 0 <= i < |swaps| && swaps[i].backup == x;
      assert i < n ==> swaps[..n][i].backup == x;
    }
    forall x | x in Replaced(swaps) ensures x in Replaced(swaps[..n]) + {swaps[n].target} {
      var i :| 0 <= i < |swaps| && swaps[i].target == x;
      assert i < n ==> swaps[..n][i].target == x;
    }
  }

  lemma SwapUndone(f: Files, asset: Stage, s: Swap, g: Files)
    requires SwapStep(f, asset, s, g)
    requires asset.temp != asset.target
    ensures RollbackOne(g, s) == f - {asset.temp}
  {
  }

  /** Forgetting files that no swap mentions commutes with undoing the swaps. */
  lemma {:induction false} ForgetCommutes(f: Files, swaps: seq<Swap>, gone: set<Path>)
    requires gone !! Replaced(swaps) + Backups(swaps)
    ensures RollbackAll(f - gone, swaps) == RollbackAll(f, swaps) - gone
    decreases |swaps|
  {
    if swaps != [] {
      var n := |swaps| - 1;
      assert swaps[n].target in Replaced(swaps) && swaps[n].backup in Backups(swaps);
      assert RollbackOne(f - gone, swaps[n]) == RollbackOne(f, swaps[n]) - gone;
      assert forall i | 0 <= i < n :: swaps[..n][i] == swaps[i];
      ForgetCommutes(RollbackOne(f, swaps[n]), swaps[..n], gone);
    }
  }

  lemma {:induction false} InstalledTargets(f: Files, assets: seq<Stage>, swaps: seq<Swap>, g: Files)
    requires |assets| == |swaps| && Installed(f, assets, swaps, g)
    ensures Replaced(swaps) == Targets(assets)
    decreases |assets|
  {
    if assets != [] {
      var n := |assets| - 1;
      Prefixes(assets, swaps);
      var h :| Installed(f, assets[..n], swaps[..n], h) && SwapStep(h, assets[n], swaps[n], g);
      InstalledTargets(f, assets[..n], swaps[..n], h);
    }
  }

  /** Undoing a finished transaction gives back the whole old disk, less the temporary files. */
  lemma {:induction false} RollbackRestores(f: Files, assets: seq<Stage>, swaps: seq<Swap>, g: Files)
    requires |assets| == |swaps| && Installed(f, assets, swaps, g)
    requires Apart(assets, swaps)
    ensures RollbackAll(g, swaps) == f - Temps(assets)
    decreases |assets|
  {
    if assets != [] {
      var n := |assets| - 1;
      Prefixes(assets, swaps);
      ApartPrefix(assets, swaps);
      var h :| Installed(f, assets[..n], swaps[..n], h) && SwapStep(h, assets[n], swaps[n], g);
      RollbackRestores(f, assets[..n], swaps[..n], h);
      SwapUndone(h, assets[n], swaps[n], g);
      InstalledTargets(f, assets[..n], swaps[..n], h);
      ForgetCommutes(h, swaps[..n], {assets[n].temp});
      assert f - Temps(assets) == f - Temps(assets[..n]) - {assets[n].temp};
    }
  }

  /** No later stage has the same target. */
  predicate LastFor(assets: seq<Stage>, i: nat)
    requires i < |assets|
  {
    forall j | i < j < |assets| :: assets[j].target != assets[i].target
  }

  /** The last stage for a target wins. */
  lemma {:induction false} LastStageWins(f: Files, assets: seq<Stage>, swaps: seq<Swap>, g: Files, i: nat)
    requires |assets| == |swaps| && Installed(f, assets, swaps, g)
    requires Apart(assets, swaps)
    requires i < |assets| && LastFor(assets, i)
    ensures assets[i].temp in f && assets[i].target in g && g[assets[i].target] == f[assets[i].temp]
    decreases |assets|
  {
    var n := |assets| - 1;
    Prefixes(assets, swaps);
    ApartPrefix(assets, swaps);
    var h :| Installed(f, assets[..n], swaps[..n], h) && SwapStep(h, assets[n], swaps[n], g);
    hide Apart, Installed;
    if i == n {
      TempUntouched(f, assets[..n], swaps[..n], h, assets[n].temp);
    } else {
      assert assets[..n][i] == assets[i] && LastFor(assets[..n], i);
      assert assets[i].target in Targets(assets);
      LastStageWins(f, assets[..n], swaps[..n], h, i);
    }
  }

  /** Nothing appears but targets and backups, and nothing unrelated changes. */
  lemma {:induction false} UnrelatedUntouched(f: Files, assets: seq<Stage>, swaps: seq<Swap>, g: Files)
    requires |assets| == |swaps| && Installed(f, assets, swaps, g)
    ensures f.Keys <= g.Keys + Temps(assets)
    ensures g.Keys <= f.Keys + Targets(assets) + Backups(swaps)
    ensures forall p | p in f && p in g && p !in Targets(assets) + Backups(swaps) :: g[p] == f[p]
    decreases |assets|
  {
    if assets != [] {
      var n := |assets| - 1;
      Prefixes(assets, swaps);
      var h :| Installed(f, assets[..n], swaps[..n], h) && SwapStep(h, assets[n], swaps[n], g);
      UnrelatedUntouched(f, assets[..n], swaps[..n], h);
    }
  }

  /** A path that is neither a target nor a backup can only lose its file. */
  lemma {:induction false} TempUntouched(f: Files, assets: seq<Stage>, swaps: seq<Swap>, g: Files, p: Path)
    requires |assets| == |swaps| && Installed(f, assets, swaps, g)
    requires p in g && p !in Targets(assets) && p !in Backups(swaps)
    ensures p in f && f[p] == g[p]
    decreases |assets|
  {
    if assets != [] {
      var n := |assets| - 1;
      Prefixes(assets, swaps);
      var h :| Installed(f, assets[..n], swaps[..n], h) && SwapStep(h, assets[n], swaps[n], g);
      TempUntouched(f, assets[..n], swaps[..n], h, p);
    }
  }

  lemma InstalledExtend(f: Files, assets: seq<Stage>, swaps: seq<Swap>, h: Files, asset: Stage, s: Swap, g: Files)
    requires |assets| == |swaps| && Installed(f, assets, swaps, h) && SwapStep(h, asset, s, g)
    ensures Installed(f, assets + [asset], swaps + [s], g)
  {
    assert (assets + [asset])[..|assets|] == assets && (swaps + [s])[..|swaps|] == swaps;
  }

  ghost predicate AgreeOn(f: Files, g: Files, ps: set<Path>) {
    forall p | p in ps :: (p in f <==> p in g) && (p in f && p in g ==> f[p] == g[p])
  }

  lemma RollbackOneLocal(f: Files, g: Files, s: Swap, ps: set<Path>)
    requires AgreeOn(f, g, ps) && s.target in ps && s.backup in ps
    ensures AgreeOn(RollbackOne(f, s), RollbackOne(g, s), ps)
  {
  }

  /** Rollback looks only at the targets and the backups. */
  lemma {:induction false} RollbackLocal(f: Files, g: Files, swaps: seq<Swap>, ps: set<Path>)
    requires AgreeOn(f, g, ps) && Replaced(swaps) + Backups(swaps) <= ps
    ensures AgreeOn(RollbackAll(f, swaps), RollbackAll(g, swaps), ps)
    decreases |swaps|
  {
    hide AgreeOn, RollbackOne;
    if swaps != [] {
      var n := |swaps| - 1;
      assert swaps[n].target in Replaced(swaps) && swaps[n].backup in Backups(swaps);
      assert Replaced(swaps[..n]) + Backups(swaps[..n]) <= ps by {
        assert forall i | 0 <= i < n :: swaps[..n][i] == swaps[i];
        assert forall i | 0 <= i < n :: swaps[i].target in Replaced(swaps) && swaps[i].backup in Backups(swaps);
      }
      RollbackOneLocal(f, g, swaps[n], ps);
      RollbackLocal(RollbackOne(f, swaps[n]), RollbackOne(g, swaps[n]), swaps[..n], ps);
    }
  }

  /** A later rollback restores every target, whatever else happened on the disk in between. */
  lemma LaterRollback(f: Files, assets: seq<Stage>, swaps: seq<Swap>, g: Files, later: Files)
    requires |assets| == |swaps| && Installed(f, assets, swaps, g) && Apart(assets, swaps)
    requires AgreeOn(g, later, Targets(assets) + Backups(swaps))
    ensures AgreeOn(f, RollbackAll(later, swaps), Targets(assets))
  {
    RollbackRestores(f, assets, swaps, g);
    InstalledTargets(f, assets, swaps, g);
    RollbackLocal(g, later, swaps, Targets(assets) + Backups(swaps));
  }

  lemma SubTargets(assets: seq<Stage>, i: nat)
    requires i <= |assets|
    ensures Targets(assets[..i]) <= Targets(assets) && Temps(assets[..i]) <= Temps(assets)
  {
    assert forall k | 0 <= k < i :: assets[..i][k] == assets[k];
  }

  lemma Extended(f: Files, assets: seq<Stage>, i: nat, swaps: seq<Swap>, h: Files, s: Swap, g: Files)
    requires i < |assets| && |swaps| == i && Installed(f, assets[..i], swaps, h)
    requires SwapStep(h, assets[i], s, g)
    ensures Installed(f, assets[..i + 1], swaps + [s], g)
    ensures Backups(swaps + [s]) == Backups(swaps) + {s.backup}
  {
    InstalledExtend(f, assets[..i], swaps, h, assets[i], s, g);
    assert assets[..i] + [assets[i]] == assets[..i + 1];
    Prefixes(assets[..i + 1], swaps + [s]);
    assert (swaps + [s])[..i] == swaps;
  }

  /** A transaction leaves every target, and every backup that rollback needs, on the disk. */
  lemma {:induction false} InstalledPresent(f: Files, assets: seq<Stage>, swaps: seq<Swap>, g: Files)
    requires |assets| == |swaps| && Installed(f, assets, swaps, g) && Apart(assets, swaps)
    ensures Targets(assets) <= g.Keys
    ensures forall i | 0 <= i < |swaps| :: swaps[i].hadOriginal ==> swaps[i].backup in g
    decreases |assets|
  {
    if assets != [] {
      var n := |assets| - 1;
      Prefixes(assets, swaps);
      ApartPrefix(assets, swaps);
      var h :| Installed(f, assets[..n], swaps[..n], h) && SwapStep(h, assets[n], swaps[n], g);
      InstalledPresent(f, assets[..n], swaps[..n], h);
      hide Installed;
      forall i | 0 <= i < n ensures swaps[i].hadOriginal ==> swaps[i].backup in g {
        assert swaps[..n][i] == swaps[i];
        assert swaps[i].backup in Backups(swaps[..n]);
      }
    }
  }

  /** A name that no swap needs. */
  ghost predicate Idle(swaps: seq<Swap>, x: Path) {
    forall i | 0 <= i < |swaps| :: swaps[i].target != x && (swaps[i].hadOriginal ==> swaps[i].backup != x)
  }

  /** A stray file under such a name makes no difference to the others. */
  lemma {:induction false} StrayHarmless(f: Files, g: Files, swaps: seq<Swap>, x: Path)
    requires f - {x} == g - {x} && Idle(swaps, x)
    ensures RollbackAll(f, swaps) - {x} == RollbackAll(g, swaps) - {x}
    ensures Restorable(f, swaps) <==> Restorable(g, swaps)
    decreases |swaps|
  {
    if swaps != [] {
      var n := |swaps| - 1;
      StrayStep(f, g, swaps[n], x);
      assert Idle(swaps[..n], x);
      hide RollbackOne, Idle;
      StrayHarmless(RollbackOne(f, swaps[n]), RollbackOne(g, swaps[n]), swaps[..n], x);
    }
  }

  lemma StrayStep(f: Files, g: Files, s: Swap, x: Path)
    requires f - {x} == g - {x} && s.target != x && (s.hadOriginal ==> s.backup != x)
    ensures RollbackOne(f, s) - {x} == RollbackOne(g, s) - {x}
    ensures s.hadOriginal ==> (s.backup in f <==> s.backup in g)
  {
    assert forall p | p != x :: (p in f <==> p in f - {x}) && (p in g <==> p in g - {x});
    assert forall p | p != x && p in f :: f[p] == (f - {x})[p] == (g - {x})[p] == g[p];
  }

  /** The disk as before, less temporary files already used, but perhaps for one stray new file. */
  ghost predicate Restored(f: Files, assets: seq<Stage>, stray: Path, g: Files) {
    && AgreeOn(f, g, Targets(assets) - {stray})
    && exists n | 0 <= n < |assets| :: g - {stray} == f - Temps(assets[..n]) - {stray}
  }

  lemma RestoredBy(f: Files, assets: seq<Stage>, i: nat, swaps: seq<Swap>, h: Files, stray: Path, g: Files)
    requires i < |assets| && |swaps| == i && Installed(f, assets[..i], swaps, h)
    requires Targets(assets) !! Temps(assets) && Apart(assets[..i], swaps)
    requires stray !in h && g - {stray} == h
    ensures Restored(f, assets, stray, RollbackAll(g, swaps)) && Restorable(g, swaps)
  {
    SubTargets(assets, i);
    RollbackRestores(f, assets[..i], swaps, h);
    InstalledRestorable(f, assets[..i], swaps, h);
    InstalledPresent(f, assets[..i], swaps, h);
    InstalledTargets(f, assets[..i], swaps, h);
    assert Idle(swaps, stray) by {
      assert forall k | 0 <= k < i :: swaps[k].target in Replaced(swaps);
    }
    assert h - {stray} == g - {stray};
    StrayHarmless(g, h, swaps, stray);
    hide Installed, Restorable, RollbackAll;
    var r := RollbackAll(g, swaps);
    assert r - {stray} == f - Temps(assets[..i]) - {stray};
    forall p | p in Targets(assets) - {stray}
      ensures (p in f <==> p in r) && (p in f && p in r ==> f[p] == r[p])
    {
      assert p in r <==> p in r - {stray};
      assert p !in Temps(assets[..i]);
    }
  }

  lemma {:induction false} NamesDiffer(f: Files, assets: seq<Stage>, swaps: seq<Swap>, g: Files)
    requires |assets| == |swaps| && Installed(f, assets, swaps, g)
    ensures forall i | 0 <= i < |swaps| :: swaps[i].hadOriginal ==> swaps[i].backup != swaps[i].target
    decreases |assets|
  {
    if assets != [] {
      var n := |assets| - 1;
      var h :| Installed(f, assets[..n], swaps[..n], h) && SwapStep(h, assets[n], swaps[n], g);
      NamesDiffer(f, assets[..n], swaps[..n], h);
      assert forall i | 0 <= i < n :: swaps[..n][i] == swaps[i];
    }
  }

  lemma StrayNotTarget(f: Files, assets: seq<Stage>, i: nat, swaps: seq<Swap>, h: Files, stray: Path)
    requires i < |assets| && |swaps| == i && Installed(f, assets[..i], swaps, h)
    requires Targets(assets) !! Temps(assets) && Targets(assets) <= f.Keys && stray !in h
    ensures stray !in Targets(assets) && Targets(assets) - {stray} == Targets(assets)
  {
    SubTargets(assets, i);
    ExistingKept(f, assets[..i], swaps, h, Targets(assets));
  }

  lemma FreePath(used: set<Path>) returns (p: Path)
    ensures p !in used
  {
    var bound := Above(used);
    p := bound;
  }

  lemma Above(used: set<Path>) returns (p: Path)
    ensures forall q | q in used :: q < p
  {
    if used == {} {
      p := 0;
    } else {
      var x :| x in used;
      var q := Above(used - {x});
      p := if x < q then q else x + 1;
      forall y | y in used ensures y < p { assert y != x ==> y in used - {x}; }
    }
  }

  /** Some operation in this stretch failed. */
  ghost predicate Faulty(fails: nat -> bool, from: nat, to: nat) {
    exists t | from <= t < to :: fails(t)
  }

  /** Every temporary file is there, and is used once. */
  ghost predicate Ready(assets: seq<Stage>, f: Files) {
    && (forall i | 0 <= i < |assets| :: assets[i].temp in f)
    && (forall i, j | 0 <= i < j < |assets| :: assets[i].temp != assets[j].temp)
  }

  lemma StillReady(f: Files, assets: seq<Stage>, i: nat, j: nat, swaps: seq<Swap>, h: Files)
    requires i <= j < |assets| && |swaps| == i && Installed(f, assets[..i], swaps, h) && Ready(assets, f)
    ensures assets[j].temp in h
  {
    UnrelatedUntouched(f, assets[..i], swaps, h);
    assert assets[j].temp !in Temps(assets[..i]) by {
      assert forall k | 0 <= k < i :: assets[..i][k] == assets[k];
    }
  }

  /** The names drawn for the first backups are not those of temporary files still to be used. */
  ghost predicate Clear(assets: seq<Stage>, names: seq<Path>) {
    forall k, j | 0 <= k < |names| && k <= j < |assets| :: names[k] != assets[j].temp
  }

  ghost predicate NamedAs(swaps: seq<Swap>, names: seq<Path>) {
    |swaps| <= |names| && forall k | 0 <= k < |swaps| :: swaps[k].backup == names[k]
  }

  lemma ClearApart(assets: seq<Stage>, i: nat, swaps: seq<Swap>, names: seq<Path>)
    requires i <= |assets| && |swaps| == i && NamedAs(swaps, names) && Clear(assets, names)
    requires Targets(assets) !! Temps(assets)
    ensures Apart(assets[..i], swaps)
  {
    SubTargets(assets, i);
    forall k, j | 0 <= k < j < i ensures swaps[k].backup != assets[..i][j].temp {
      assert swaps[k].backup == names[k];
    }
  }

  /** Every backup that undoing needs is there when it is needed. */
  ghost predicate Restorable(f: Files, swaps: seq<Swap>)
    decreases |swaps|
  {
    swaps == [] ||
    var s := swaps[|swaps| - 1];
    (s.hadOriginal ==> s.backup in f) && Restorable(RollbackOne(f, s), swaps[..|swaps| - 1])
  }

  lemma {:induction false} RestorableForget(f: Files, swaps: seq<Swap>, gone: set<Path>)
    requires gone !! Replaced(swaps) + Backups(swaps)
    ensures Restorable(f - gone, swaps) <==> Restorable(f, swaps)
    decreases |swaps|
  {
    if swaps != [] {
      var n := |swaps| - 1;
      assert swaps[n].target in Replaced(swaps) && swaps[n].backup in Backups(swaps);
      assert RollbackOne(f - gone, swaps[n]) == RollbackOne(f, swaps[n]) - gone;
      assert forall i | 0 <= i < n :: swaps[..n][i] == swaps[i];
      RestorableForget(RollbackOne(f, swaps[n]), swaps[..n], gone);
    }
  }

  lemma {:induction false} InstalledRestorable(f: Files, assets: seq<Stage>, swaps: seq<Swap>, g: Files)
    requires |assets| == |swaps| && Installed(f, assets, swaps, g)
    requires Apart(assets, swaps)
    ensures Restorable(g, swaps)
    decreases |assets|
  {
    if assets != [] {
      var n := |assets| - 1;
      Prefixes(assets, swaps);
      ApartPrefix(assets, swaps);
      var h :| Installed(f, assets[..n], swaps[..n], h) && SwapStep(h, assets[n], swaps[n], g);
      InstalledRestorable(f, assets[..n], swaps[..n], h);
      SwapUndone(h, assets[n], swaps[n], g);
      InstalledTargets(f, assets[..n], swaps[..n], h);
      hide Installed, Apart;
      RestorableForget(h, swaps[..n], {assets[n].temp});
    }
  }

  /** The file system. Operation number t fails if `fails(t)`. */
  class Disk {
    const fails: nat -> bool
    var files: Files
    var ops: nat

    constructor (f: Files, fails: nat -> bool)
      ensures files == f && this.fails == fails && ops == 0
    {
      files, ops, this.fails := f, 0, fails;
    }

    method Rename(from: Path, to: Path) returns (o: Outcome)
      modifies this
      ensures ops == old(ops) + 1 && (o == Failed <==> fails(old(ops)))
      ensures o == Done ==> from in old(files) && files == (old(files) - {from})[to := old(files)[from]]
      ensures o != Done ==> files == old(files)
      ensures o == NotExist ==> from !in files
    {
      ops := ops + 1;
      if fails(ops - 1) {
        o := Failed;
      } else if from !in files {
        o := NotExist;
      } else {
        files := (files - {from})[to := files[from]];
        o := Done;
      }
    }

    method Remove(p: Path) returns (o: Outcome)
      modifies this
      ensures ops == old(ops) + 1 && (o == Failed <==> fails(old(ops)))
      ensures o == Failed ==> files == old(files)
      ensures o != Failed ==> files == old(files) - {p} && (o == Done <==> p in old(files))
    {
      ops := ops + 1;
      if fails(ops - 1) {
        o := Failed;
      } else {
        o := if p in files then Done else NotExist;
        files := files - {p};
      }
    }

    /** Creating or closing a file. */
    method Attempt() returns (ok: bool)
      modifies this`ops
      ensures ops == old(ops) + 1 && (ok <==> !fails(old(ops)))
    {
      ops := ops + 1;
      ok := !fails(ops - 1);
    }

    /** Picks a backup name by creating a file that was not there and removing it; on failure the file may
        stay behind. */
    method BackupFile() returns (ok: bool, name: Path)
      modifies this
      ensures name !in old(files)
      ensures files - {name} == old(files)
      ensures ok ==> files == old(files)
      ensures ops >= old(ops) && (!ok ==> Faulty(fails, old(ops), ops))
    {
      ghost var free := FreePath(files.Keys);
      assert free !in files;
      var n: Path :| n !in files;
      name := n;
      ok := Attempt();
      if !ok {
        return;
      }
      files := files[name := 0];
      ok := Attempt();
      if !ok {
        var _ := Remove(name);
        return;
      }
      var o := Remove(name);
      ok := o == Done;
    }

    /** `turned` is when an error was met and restoring began. The backup could only get the name of the
        temporary file if that is missing. */
    method SwapOne(asset: Stage) returns (r: SwapResult, stray: Path, ghost turned: nat)
      requires asset.target != asset.temp
      modifies this
      ensures stray !in old(files)
      ensures r.Swapped? ==> r.swap.backup == stray && (r.swap.hadOriginal ==> stray != r.swap.target)
      ensures stray != asset.temp ==> Swapping(old(files), asset, stray, r, files)
      ensures old(ops) <= turned <= ops
      ensures stray != asset.temp && r.SwapError? ==> Faulty(fails, old(ops), turned) || asset.temp !in old(files)
      ensures stray != asset.temp && r.SwapError? && !r.restored ==> Faulty(fails, turned, ops)
    {
      var ok, backup := BackupFile();
      stray, turned := backup, ops;
      if !ok {
        return SwapError(true), stray, turned;
      }
      var s := Swap(asset.target, backup, false);
      var o := Rename(asset.target, backup);
      turned := ops;
      if o == Failed {
        return SwapError(true), stray, turned;
      }
      if o == NotExist {
        var e := Remove(backup);
        turned := ops;
        if e == Failed {
          return SwapError(true), stray, turned;
        }
      } else {
        s := s.(hadOriginal := true);
      }
      r, turned := Install(asset, s, old(files));
    }

    /** The second rename of a swap, and the way back when it fails. */
    method Install(asset: Stage, s: Swap, ghost before: Files) returns (r: SwapResult, ghost turned: nat)
      requires s.target == asset.target && asset.target != asset.temp
      requires s.backup !in before && (s.hadOriginal <==> asset.target in before)
      requires files == if s.hadOriginal then (before - {s.target})[s.backup := before[s.target]] else before
      modifies this
      ensures r.Swapped? ==> r.swap == s
      ensures s.backup != asset.temp ==> Swapping(before, asset, s.backup, r, files)
      ensures old(ops) <= turned <= ops
      ensures s.backup != asset.temp && r.SwapError? ==> Faulty(fails, old(ops), turned) || asset.temp !in before
      ensures s.backup != asset.temp && r.SwapError? && !r.restored ==> Faulty(fails, turned, ops)
    {
      var e := Rename(asset.temp, asset.target);
      turned := ops;
      if e == Done {
        return Swapped(s), turned;
      }
      r := SwapError(true);
      if s.hadOriginal {
        var back := Rename(s.backup, asset.target);
        r := SwapError(back == Done);
      }
    }

    /** Undoes one swap; `ok` when no operation failed. */
    method RollbackSwap(s: Swap) returns (ok: bool)
      requires s.hadOriginal ==> s.backup != s.target
      modifies this
      ensures ok ==> files == RollbackOne(old(files), s)
      ensures files - {s.target, s.backup} == old(files) - {s.target, s.backup}
      ensures old(ops) <= ops
      ensures !ok ==> Faulty(fails, old(ops), ops) || (s.hadOriginal && s.backup !in old(files))
    {
      var e := Remove(s.target);
      ok := e != Failed;
      if s.hadOriginal {
        e := Rename(s.backup, s.target);
        ok := ok && e == Done;
      } else {
        e := Remove(s.backup);
        ok := ok && e != Failed;
      }
    }

    method Rollback(swaps: seq<Swap>) returns (ok: bool)
      requires forall i | 0 <= i < |swaps| :: swaps[i].hadOriginal ==> swaps[i].backup != swaps[i].target
      modifies this
      ensures ok ==> files == RollbackAll(old(files), swaps)
      ensures files - (Replaced(swaps) + Backups(swaps)) == old(files) - (Replaced(swaps) + Backups(swaps))
      ensures old(ops) <= ops
      ensures !ok && Restorable(old(files), swaps) ==> Faulty(fails, old(ops), ops)
    {
      hide RollbackOne;
      ok := true;
      var i := |swaps|;
      assert swaps[..i] == swaps;
      while i > 0
        invariant 0 <= i <= |swaps| && old(ops) <= ops
        invariant ok ==> RollbackAll(files, swaps[..i]) == RollbackAll(old(files), swaps)
        invariant ok && Restorable(old(files), swaps) ==> Restorable(files, swaps[..i])
        invariant !ok && Restorable(old(files), swaps) ==> Faulty(fails, old(ops), ops)
        invariant files - (Replaced(swaps) + Backups(swaps)) == old(files) - (Replaced(swaps) + Backups(swaps))
      {
        assert swaps[i - 1].target in Replaced(swaps) && swaps[i - 1].backup in Backups(swaps);
        assert swaps[..i][..i - 1] == swaps[..i - 1];
        i := i - 1;
        ghost var pair := {swaps[i].target, swaps[i].backup};
        ghost var f := files;
        var one := RollbackSwap(swaps[i]);
        ok := ok && one;
        ghost var all := Replaced(swaps) + Backups(swaps);
        assert files - all == files - pair - all && f - all == f - pair - all;
      }
    }

    /**
     * All or nothing. Success installs every stage, and rollback would bring the old disk back;
     * failure whose restoring operations succeed leaves the old disk, less the temporary files of
     * stages that had been installed, plus at most one stray empty backup file. It fails only if an
     * operation fails or a temporary file is missing, and fails to restore only if a further
     * operation, after `turned`, fails. All this needs is that no backup gets the name of a temporary
     * file still to be used, which cannot be while the temporary files are there.
     */
    method SwapAll(assets: seq<Stage>) returns (r: TxResult, stray: Path, ghost names: seq<Path>, ghost turned: nat)
      requires Targets(assets) !! Temps(assets)
      modifies this
      ensures old(ops) <= turned <= ops && (Ready(assets, old(files)) ==> Clear(assets, names))
      ensures r.Tx? ==> |r.swaps| == |assets| && NamedAs(r.swaps, names)
      ensures r.Tx? && Clear(assets, names) ==>
                && Apart(assets, r.swaps) && Installed(old(files), assets, r.swaps, files)
                && RollbackAll(files, r.swaps) == old(files) - Temps(assets) && Restorable(files, r.swaps)
      ensures r.Tx? && Clear(assets, names) && Targets(assets) <= old(files).Keys ==> Backups(r.swaps) !! Targets(assets)
      ensures r.TxError? && r.restored && Clear(assets, names) ==> Restored(old(files), assets, stray, files)
      ensures r.TxError? && r.restored && Clear(assets, names) && Targets(assets) <= old(files).Keys ==>
                AgreeOn(old(files), files, Targets(assets))
      ensures r.TxError? && Clear(assets, names) ==> Faulty(fails, old(ops), turned) || !Ready(assets, old(files))
      ensures r.TxError? && !r.restored && Clear(assets, names) ==> Faulty(fails, turned, ops)
    {
      hide Installed, SwapStep, Restored, Restorable, Clear, Ready, Apart, NamedAs;
      var swaps: seq<Swap> := [];
      var i := 0;
      stray, turned, names := 0, ops, [];
      NoneInstalled(files, assets);
      while i < |assets|
        invariant 0 <= i <= |assets| && |swaps| == i == |names| && old(ops) <= ops
        invariant forall k | 0 <= k < i :: swaps[k].hadOriginal ==> swaps[k].backup != swaps[k].target
        invariant NamedAs(swaps, names)
        invariant Clear(assets, names) ==> Installed(old(files), assets[..i], swaps, files)
        invariant Ready(assets, old(files)) ==> Clear(assets, names)
      {
        TempNotTarget(assets, i);
        ghost var h, drawn := files, names;
        var one, name, at := SwapOne(assets[i]);
        names := drawn + [name];
        NextName(old(files), assets, i, swaps, h, drawn, name);
        if one.SwapError? {
          stray, turned := name, at;
          r := Undo(assets, i, swaps, h, name, names, one.restored, old(files));
          return;
        }
        swaps := swaps + [one.swap];
        if Clear(assets, names) {
          Extended(old(files), assets, i, swaps[..i], h, one.swap, files);
          assert swaps[..i] + [one.swap] == swaps;
        }
        NamedSnoc(swaps, names);
        i := i + 1;
      }
      assert assets[..i] == assets;
      r := Tx(swaps);
      if Clear(assets, names) {
        ClearApart(assets, i, swaps, names);
        RollbackRestores(old(files), assets, swaps, files);
        InstalledRestorable(old(files), assets, swaps, files);
        if Targets(assets) <= old(files).Keys {
          CommitKeepsTargets(old(files), assets, swaps, files);
        }
      }
    }

    /** The failing stage's way out of swapAll. */
    method Undo(assets: seq<Stage>, i: nat, swaps: seq<Swap>, ghost h: Files, stray: Path, ghost names: seq<Path>,
                restored: bool, ghost before: Files)
      returns (r: TxResult)
      requires i < |assets| && |swaps| == i && Targets(assets) !! Temps(assets)
      requires forall k | 0 <= k < i :: swaps[k].hadOriginal ==> swaps[k].backup != swaps[k].target
      requires NamedAs(swaps, names) && stray !in h
      requires Clear(assets, names) ==> Installed(before, assets[..i], swaps, h)
      requires Clear(assets, names) && restored ==> files - {stray} == h
      modifies this
      ensures r.TxError? && (r.restored ==> restored) && old(ops) <= ops
      ensures Clear(assets, names) && r.restored ==> Restored(before, assets, stray, files)
      ensures Clear(assets, names) && r.restored && Targets(assets) <= before.Keys ==> AgreeOn(before, files, Targets(assets))
      ensures Clear(assets, names) && restored && !r.restored ==> Faulty(fails, old(ops), ops)
    {
      hide Installed, Restorable, Clear, NamedAs, RollbackAll;
      if Clear(assets, names) && restored {
        ClearApart(assets, i, swaps, names);
        RestoredBy(before, assets, i, swaps, h, stray, files);
        if Targets(assets) <= before.Keys {
          StrayNotTarget(before, assets, i, swaps, h, stray);
        }
      }
      var undone := Rollback(swaps);
      r := TxError(restored && undone);
    }

    /** Removes temporary files that were not used; errors do not matter. */
    method Clean(assets: seq<Stage>)
      modifies this
      ensures forall p | p !in Temps(assets) :: p in files <==> p in old(files)
      ensures forall p | p !in Temps(assets) && p in files && p in old(files) :: files[p] == old(files)[p]
    {
      for i := 0 to |assets|
        invariant forall p | p !in Temps(assets) :: p in files <==> p in old(files)
        invariant forall p | p !in Temps(assets) && p in files && p in old(files) :: files[p] == old(files)[p]
      {
        assert assets[i].temp in Temps(assets);
        var _ := Remove(assets[i].temp);
      }
    }

    /**
     * reloadWithUpdate, after the download: every target is there and so is every temporary file. Either
     * every target holds its new file and the old ones are gone from the targets for good, or every target is as
     * it was, unless an operation failed between `turned` and `settled` too. Without failing operations the result is what
     * `reloads`, whether the program can load the new files, says.
     */
    method ReloadWithUpdate(assets: seq<Stage>, reloads: bool) returns (updated: bool, ghost turned: nat, ghost settled: nat)
      requires Targets(assets) !! Temps(assets) && Targets(assets) <= files.Keys && Ready(assets, files)
      modifies this
      ensures updated ==> reloads && Updated(old(files), assets, files)
      ensures !updated && !Faulty(fails, turned, settled) ==> AgreeOn(old(files), files, Targets(assets))
      ensures old(ops) <= turned <= settled && (!updated ==> !reloads || Faulty(fails, old(ops), turned))
    {
      hide Installed, Restored, Restorable, Clear, Ready, Apart, NamedAs, Updated, RollbackAll;
      var r, stray, names, at := SwapAll(assets);
      turned := at;
      updated := false;
      if r.Tx? {
        turned := ops;
        updated := Settle(assets, r.swaps, reloads, old(files));
      }
      settled := ops;
      ghost var before := files;
      Clean(assets);
      assert AgreeOn(before, files, Targets(assets));
      if updated {
        UpdatedStays(old(files), assets, before, files);
      } else if AgreeOn(old(files), before, Targets(assets)) {
        AgreeTransitive(old(files), before, files, Targets(assets));
      }
    }

    /** Commit or rollback, as the reload went. */
    method Settle(assets: seq<Stage>, swaps: seq<Swap>, reloads: bool, ghost before: Files) returns (updated: bool)
      requires |assets| == |swaps| && Installed(before, assets, swaps, files) && Apart(assets, swaps)
      requires Restorable(files, swaps) && Targets(assets) <= before.Keys && Targets(assets) !! Temps(assets)
      modifies this
      ensures updated == reloads && old(ops) <= ops
      ensures updated ==> Updated(before, assets, files)
      ensures !updated && !Faulty(fails, old(ops), ops) ==> AgreeOn(before, files, Targets(assets))
    {
      hide Installed, Restorable, Apart, Updated, RollbackAll;
      ghost var g := files;
      CommitKeepsTargets(before, assets, swaps, g);
      updated := reloads;
      if reloads {
        UpdatedBy(before, assets, swaps, g);
        var _ := Commit(swaps);
        UpdatedStays(before, assets, g, files);
      } else {
        NamesDiffer(before, assets, swaps, g);
        LaterRollback(before, assets, swaps, g, g);
        var _ := Rollback(swaps);
      }
    }

    /** Commit removes backups and nothing else; it complains only if an operation failed. */
    method Commit(swaps: seq<Swap>) returns (ok: bool)
      modifies this
      ensures files.Keys <= old(files).Keys
      ensures forall p | p in old(files) && p !in Backups(swaps) :: p in files
      ensures forall p | p in files :: files[p] == old(files)[p]
      ensures ok ==> files == old(files) - Backups(swaps)
      ensures old(ops) <= ops && (!ok ==> Faulty(fails, old(ops), ops))
    {
      ok := true;
      for i := 0 to |swaps|
        invariant files.Keys <= old(files).Keys && old(ops) <= ops
        invariant forall p | p in old(files) && p !in Backups(swaps) :: p in files
        invariant forall p | p in files :: files[p] == old(files)[p]
        invariant ok ==> forall p | p in files :: p !in Backups(swaps[..i])
        invariant !ok ==> Faulty(fails, old(ops), ops)
      {
        assert swaps[i].backup in Backups(swaps);
        assert Backups(swaps[..i + 1]) <= Backups(swaps[..i]) + {swaps[i].backup} by {
          assert forall k | 0 <= k < i :: swaps[..i + 1][k] == swaps[..i][k];
        }
        var e := Remove(swaps[i].backup);
        ok := ok && e != Failed;
      }
      assert swaps[..|swaps|] == swaps;
    }
  }

  /** What one swap may do, if the temporary file keeps its name for itself. */
  ghost predicate Swapping(f: Files, asset: Stage, name: Path, r: SwapResult, g: Files) {
    match r
    case Swapped(s) => SwapStep(f, asset, s, g)
    case SwapError(restored) => restored ==> g - {name} == f
  }

  lemma NoneInstalled(f: Files, assets: seq<Stage>)
    ensures assets[..0] == [] && Installed(f, assets[..0], [], f) && Clear(assets, []) && NamedAs([], [])
  {
  }

  lemma TempNotTarget(assets: seq<Stage>, i: nat)
    requires i < |assets| && Targets(assets) !! Temps(assets)
    ensures assets[i].target != assets[i].temp
  {
    assert assets[i].target in Targets(assets) && assets[i].temp in Temps(assets);
  }

  lemma NamedSnoc(swaps: seq<Swap>, names: seq<Path>)
    requires swaps != [] && |names| == |swaps| && swaps[|swaps| - 1].backup == names[|names| - 1]
    requires NamedAs(swaps[..|swaps| - 1], names[..|names| - 1])
    ensures NamedAs(swaps, names)
  {
    forall k | 0 <= k < |swaps| ensures swaps[k].backup == names[k] {
      if k < |swaps| - 1 {
        assert swaps[..|swaps| - 1][k].backup == names[..|names| - 1][k];
      }
    }
  }

  lemma NextName(f: Files, assets: seq<Stage>, i: nat, swaps: seq<Swap>, h: Files, drawn: seq<Path>, name: Path)
    requires i < |assets| && |swaps| == i == |drawn| && NamedAs(swaps, drawn) && name !in h
    requires Clear(assets, drawn) ==> Installed(f, assets[..i], swaps, h)
    requires Ready(assets, f) ==> Clear(assets, drawn)
    ensures Clear(assets, drawn + [name]) ==> Clear(assets, drawn) && name != assets[i].temp
    ensures Ready(assets, f) ==> Clear(assets, drawn + [name]) && assets[i].temp in h
    ensures NamedAs(swaps, drawn + [name]) && (drawn + [name])[..i] == drawn
  {
    var names := drawn + [name];
    if Clear(assets, names) {
      assert names[i] == name;
      forall k, j | 0 <= k < |drawn| && k <= j < |assets| ensures drawn[k] != assets[j].temp {
        assert names[k] == drawn[k];
      }
    }
    if Ready(assets, f) {
      forall k, j | 0 <= k < |names| && k <= j < |assets| ensures names[k] != assets[j].temp {
        if k == i {
          StillReady(f, assets, i, j, swaps, h);
        } else {
          assert names[k] == drawn[k];
        }
      }
      StillReady(f, assets, i, i, swaps, h);
    }
  }

  /** Files that exist when swapping begins, other than temporary ones, stay, and no backup gets their name. */
  lemma {:induction false} ExistingKept(f: Files, assets: seq<Stage>, swaps: seq<Swap>, g: Files, ps: set<Path>)
    requires |assets| == |swaps| && Installed(f, assets, swaps, g)
    requires ps <= f.Keys && ps !! Temps(assets)
    ensures ps <= g.Keys && ps !! Backups(swaps)
    decreases |assets|
  {
    if assets != [] {
      var n := |assets| - 1;
      Prefixes(assets, swaps);
      var h :| Installed(f, assets[..n], swaps[..n], h) && SwapStep(h, assets[n], swaps[n], g);
      ExistingKept(f, assets[..n], swaps[..n], h, ps);
    }
  }

  /** Commit changes no target: every target exists when swapping begins, so no backup has its name. */
  lemma CommitKeepsTargets(f: Files, assets: seq<Stage>, swaps: seq<Swap>, g: Files)
    requires |assets| == |swaps| && Installed(f, assets, swaps, g)
    requires Targets(assets) <= f.Keys && Targets(assets) !! Temps(assets)
    ensures Backups(swaps) !! Targets(assets) && Targets(assets) <= g.Keys
    ensures AgreeOn(g, g - Backups(swaps), Targets(assets))
  {
    ExistingKept(f, assets, swaps, g, Targets(assets));
  }

  /** In general, should a target have vanished before the swap: commit keeps every target exactly if no backup
      got a target's name. */
  lemma CommitKeepsTargetsExactly(f: Files, assets: seq<Stage>, swaps: seq<Swap>, g: Files)
    requires |assets| == |swaps| && Installed(f, assets, swaps, g) && Apart(assets, swaps)
    ensures AgreeOn(g, g - Backups(swaps), Targets(assets)) <==> Backups(swaps) !! Targets(assets)
  {
    InstalledPresent(f, assets, swaps, g);
    hide Installed, Backups, Targets;
    if p :| p in Backups(swaps) && p in Targets(assets) {
      assert p in g && p !in g - Backups(swaps);
    }
  }

  lemma OneSwap(a: Stage, s: Swap, f: Files, h: Files)
    requires SwapStep(f, a, s, h)
    ensures Installed(f, [a], [s], h)
  {
    hide SwapStep;
    assert Installed(f, [a][..0], [s][..0], f);
  }

  lemma TwoSwaps(a: Stage, b: Stage, s: Swap, t: Swap, f: Files, h: Files, g: Files)
    requires SwapStep(f, a, s, h) && SwapStep(h, b, t, g)
    ensures Installed(f, [a, b], [s, t], g)
  {
    hide SwapStep, Installed;
    OneSwap(a, s, f, h);
    InstalledExtend(f, [a], [s], h, b, t, g);
    assert [a] + [b] == [a, b];
    assert [s] + [t] == [s, t];
  }

  /** Target 1 has vanished and the backup of target 0 gets its name: commit removes the file installed there. */
  lemma VanishedTargetExample(assets: seq<Stage>, swaps: seq<Swap>, f: Files, g: Files)
    requires assets == [Stage(0, 2), Stage(1, 3)] && swaps == [Swap(0, 1, true), Swap(1, 4, true)]
    requires f == map[0 := 10, 2 := 12, 3 := 13] && g == map[0 := 12, 1 := 13, 4 := 10]
    ensures Installed(f, assets, swaps, g) && Apart(assets, swaps)
    ensures 1 in Targets(assets) && 1 in g && 1 !in g - Backups(swaps)
  {
    TwoSwaps(assets[0], assets[1], swaps[0], swaps[1], f, map[0 := 12, 1 := 10, 3 := 13], g);
    hide Installed;
    assert assets[1].target == 1 && swaps[0].backup == 1;
  }

  /** The outcome of an update: every target holds its new file; or every target as it was; or an operation
      failed while restoring. */
  ghost predicate Updated(f: Files, assets: seq<Stage>, g: Files) {
    forall i | 0 <= i < |assets| && LastFor(assets, i) ::
      assets[i].temp in f && assets[i].target in g && g[assets[i].target] == f[assets[i].temp]
  }

  lemma UpdatedBy(f: Files, assets: seq<Stage>, swaps: seq<Swap>, g: Files)
    requires |assets| == |swaps| && Installed(f, assets, swaps, g) && Apart(assets, swaps)
    ensures Updated(f, assets, g)
  {
    hide Installed;
    forall i | 0 <= i < |assets| && LastFor(assets, i)
      ensures assets[i].temp in f && assets[i].target in g && g[assets[i].target] == f[assets[i].temp]
    {
      LastStageWins(f, assets, swaps, g, i);
    }
  }

  lemma UpdatedStays(f: Files, assets: seq<Stage>, g: Files, h: Files)
    requires Updated(f, assets, g) && AgreeOn(g, h, Targets(assets))
    ensures Updated(f, assets, h)
  {
    forall i | 0 <= i < |assets| && LastFor(assets, i)
      ensures assets[i].temp in f && assets[i].target in h && h[assets[i].target] == f[assets[i].temp]
    {
      assert assets[i].target in Targets(assets);
    }
  }

  lemma AgreeTransitive(f: Files, g: Files, h: Files, ps: set<Path>)
    requires AgreeOn(f, g, ps) && AgreeOn(g, h, ps)
    ensures AgreeOn(f, h, ps)
  {
  }
}
