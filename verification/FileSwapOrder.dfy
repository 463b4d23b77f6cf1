/** Why a transaction is undone backwards: what undoing it forwards would do. */
module FileSwapOrder {
  import opened FileSwap

  /** Undoing swaps in the order in which they were made. */
  function RollbackForward(f: Files, swaps: seq<Swap>): Files
    decreases |swaps|
  {
    if swaps == [] then f else RollbackOne(RollbackForward(f, swaps[..|swaps| - 1]), swaps[|swaps| - 1])
  }

  /** All names differ: backups from each other, from targets and from temporary files. */
  ghost predicate AllApart(assets: seq<Stage>, swaps: seq<Swap>)
    requires |assets| == |swaps|
  {
    && Apart(assets, swaps) && Backups(swaps) !! Targets(assets) + Temps(assets)
    && forall i, j | 0 <= i < j < |swaps| :: swaps[i].backup != swaps[j].backup
  }

  lemma AllApartPrefix(assets: seq<Stage>, swaps: seq<Swap>)
    requires assets != [] && |assets| == |swaps| && AllApart(assets, swaps)
    ensures var n := |assets| - 1;
            && AllApart(assets[..n], swaps[..n])
            && swaps[n].backup !in Targets(assets) + Temps(assets) + Backups(swaps[..n])
            && assets[n].temp !in Targets(assets) + Backups(swaps)
            && assets[n].target !in Backups(swaps)
  {
    var n := |assets| - 1;
    Prefixes(assets, swaps);
    ApartPrefix(assets, swaps);
    assert forall i | 0 <= i < n :: swaps[..n][i] == swaps[i];
    assert swaps[n].backup in Backups(swaps) && assets[n].target in Targets(assets) && assets[n].temp in Temps(assets);
  }

  /** Paths that no swap mentions stay as they are. */
  lemma {:induction false} ForwardElsewhere(g: Files, swaps: seq<Swap>, p: Path)
    requires p !in Replaced(swaps) + Backups(swaps)
    ensures AgreeOn(g, RollbackForward(g, swaps), {p})
    decreases |swaps|
  {
    if swaps != [] {
      var n := |swaps| - 1;
      assert swaps[n].target in Replaced(swaps) && swaps[n].backup in Backups(swaps);
      assert forall i | 0 <= i < n :: swaps[..n][i] == swaps[i];
      ForwardElsewhere(g, swaps[..n], p);
    }
  }

  /** A target ends up as the backup of its last swap, or absent if that had none. */
  lemma {:induction false} ForwardTarget(assets: seq<Stage>, swaps: seq<Swap>, g: Files, j: nat)
    requires |assets| == |swaps| && AllApart(assets, swaps) && Replaced(swaps) == Targets(assets)
    requires forall i | 0 <= i < |swaps| :: swaps[i].target == assets[i].target
    requires j < |assets| && LastFor(assets, j) && (swaps[j].hadOriginal ==> swaps[j].backup in g)
    ensures var p, r := assets[j].target, RollbackForward(g, swaps);
            if swaps[j].hadOriginal then p in r && r[p] == g[swaps[j].backup] else p !in r
    decreases |assets|
  {
    var n := |assets| - 1;
    Prefixes(assets, swaps);
    AllApartPrefix(assets, swaps);
    SameTargets(assets, swaps);
    var r := RollbackForward(g, swaps[..n]);
    assert RollbackForward(g, swaps) == RollbackOne(r, swaps[n]);
    hide RollbackForward, AllApart;
    if j == n {
      ForwardElsewhere(g, swaps[..n], swaps[n].backup);
      assert swaps[n].backup in {swaps[n].backup};
    } else {
      assert assets[..n][j] == assets[j] && swaps[..n][j] == swaps[j] && LastFor(assets[..n], j);
      ForwardTarget(assets[..n], swaps[..n], g, j);
      assert assets[j].target in Targets(assets[..n]);
      assert swaps[n].target != assets[j].target && swaps[n].backup != assets[j].target;
    }
  }

  lemma SameTargets(assets: seq<Stage>, swaps: seq<Swap>)
    requires assets != [] && |assets| == |swaps|
    requires forall i | 0 <= i < |swaps| :: swaps[i].target == assets[i].target
    ensures var n := |assets| - 1; Replaced(swaps[..n]) == Targets(assets[..n])
  {
    var n := |assets| - 1;
    assert forall i | 0 <= i < n :: swaps[..n][i].target == assets[..n][i].target;
    forall x | x in Replaced(swaps[..n]) ensures x in Targets(assets[..n]) {
      var i :| 0 <= i < n && swaps[..n][i].target == x;
      assert assets[..n][i].target == x;
    }
    forall x | x in Targets(assets[..n]) ensures x in Replaced(swaps[..n]) {
      var i :| 0 <= i < n && assets[..n][i].target == x;
      assert swaps[..n][i].target == x;
    }
  }

  /** Stage i is the one before stage j for the same target. */
  predicate Before(assets: seq<Stage>, i: nat, j: nat)
    requires i < |assets| && j < |assets|
  {
    i < j && assets[i].target == assets[j].target && forall k | i < k < j :: assets[k].target != assets[j].target
  }

  predicate First(assets: seq<Stage>, j: nat)
    requires j < |assets|
  {
    forall i | 0 <= i < j :: assets[i].target != assets[j].target
  }

  lemma {:induction false} FirstOrBefore(assets: seq<Stage>, j: nat, k: nat)
    requires j < |assets| && k <= j && forall i | k <= i < j :: assets[i].target != assets[j].target
    ensures First(assets, j) || exists i | 0 <= i < j :: Before(assets, i, j)
    decreases k
  {
    if k > 0 {
      if assets[k - 1].target == assets[j].target {
        assert Before(assets, k - 1, j);
      } else {
        FirstOrBefore(assets, j, k - 1);
      }
    }
  }

  /** The backup of stage j holds what the stage before it installed, or the original. */
  ghost predicate BackupRight(f: Files, assets: seq<Stage>, s: Swap, g: Files, j: nat)
    requires j < |assets|
  {
    && s.target == assets[j].target
    && (s.hadOriginal ==> s.backup in g)
    && (First(assets, j) ==>
          && (s.hadOriginal <==> assets[j].target in f)
          && (s.hadOriginal ==> s.backup in g && g[s.backup] == f[assets[j].target]))
    && forall i | 0 <= i < j && Before(assets, i, j) ::
         s.hadOriginal && s.backup in g && assets[i].temp in f && g[s.backup] == f[assets[i].temp]
  }

  lemma {:induction false} BackupHolds(f: Files, assets: seq<Stage>, swaps: seq<Swap>, g: Files, j: nat)
    requires |assets| == |swaps| && Installed(f, assets, swaps, g) && AllApart(assets, swaps) && j < |assets|
    ensures BackupRight(f, assets, swaps[j], g, j)
    decreases |assets|
  {
    var n := |assets| - 1;
    AllApartPrefix(assets, swaps);
    var h :| Installed(f, assets[..n], swaps[..n], h) && SwapStep(h, assets[n], swaps[n], g);
    if j == n {
      BackupOfLast(f, assets, swaps, h, g);
    } else {
      BackupHolds(f, assets[..n], swaps[..n], h, j);
      assert swaps[..n][j] == swaps[j] && swaps[j].backup in Backups(swaps[..n]) && swaps[j].backup in Backups(swaps);
      assert assets[n].target in Targets(assets) && assets[n].temp in Temps(assets);
      hide Installed, SwapStep, AllApart, BackupRight;
      KeptBackup(h, assets[n], swaps[n], g, swaps[j].backup);
      RightLater(f, assets, swaps[j], h, g, j);
    }
  }

  lemma KeptBackup(h: Files, asset: Stage, s: Swap, g: Files, b: Path)
    requires SwapStep(h, asset, s, g) && b != asset.target && b != asset.temp && b != s.backup
    ensures AgreeOn(h, g, {b})
  {
  }

  lemma RightLater(f: Files, assets: seq<Stage>, s: Swap, h: Files, g: Files, j: nat)
    requires j < |assets| - 1 && BackupRight(f, assets[..|assets| - 1], s, h, j) && AgreeOn(h, g, {s.backup})
    ensures BackupRight(f, assets, s, g, j)
  {
    hide First, Before;
    var n := |assets| - 1;
    assert assets[..n][j] == assets[j];
    FirstPrefix(assets, n, j);
    assert s.backup in {s.backup};
    forall i | 0 <= i < j && Before(assets, i, j)
      ensures s.hadOriginal && s.backup in g && assets[i].temp in f && g[s.backup] == f[assets[i].temp]
    {
      BeforePrefix(assets, n, i, j);
      assert assets[..n][i] == assets[i];
    }
  }

  lemma FirstPrefix(assets: seq<Stage>, n: nat, j: nat)
    requires j < n <= |assets|
    ensures First(assets, j) <==> First(assets[..n], j)
  {
    assert forall i | 0 <= i < n :: assets[..n][i] == assets[i];
  }

  lemma BeforePrefix(assets: seq<Stage>, n: nat, i: nat, j: nat)
    requires i < j < n <= |assets|
    ensures Before(assets, i, j) <==> Before(assets[..n], i, j)
  {
    assert forall k | 0 <= k < n :: assets[..n][k] == assets[k];
  }

  lemma BackupOfLast(f: Files, assets: seq<Stage>, swaps: seq<Swap>, h: Files, g: Files)
    requires assets != [] && |assets| == |swaps| && AllApart(assets, swaps)
    requires var n := |assets| - 1; Installed(f, assets[..n], swaps[..n], h) && SwapStep(h, assets[n], swaps[n], g)
    ensures BackupRight(f, assets, swaps[|assets| - 1], g, |assets| - 1)
  {
    var n := |assets| - 1;
    Prefixes(assets, swaps);
    AllApartPrefix(assets, swaps);
    assert forall i | 0 <= i < n :: assets[..n][i] == assets[i];
    hide Installed;
    if First(assets, n) {
      UnrelatedUntouched(f, assets[..n], swaps[..n], h);
      assert assets[n].target !in Targets(assets[..n]);
      assert assets[n].target !in Temps(assets) by {
        assert assets[n].target in Targets(assets);
      }
    }
    forall i | 0 <= i < n && Before(assets, i, n)
      ensures swaps[n].hadOriginal && assets[i].temp in f && g[swaps[n].backup] == f[assets[i].temp]
    {
      assert LastFor(assets[..n], i);
      LastStageWins(f, assets[..n], swaps[..n], h, i);
    }
  }

  /** Whatever is the last but one stage of a target installs what was there originally. */
  ghost predicate RepeatsOriginal(f: Files, assets: seq<Stage>) {
    forall i, j | 0 <= i < j < |assets| && LastFor(assets, j) && Before(assets, i, j) ::
      assets[j].target in f && assets[i].temp in f && f[assets[i].temp] == f[assets[j].target]
  }

  /**
   * Undoing forwards restores the targets exactly if every target that is staged more than once existed and its
   * last stage but one brought the same content; undoing backwards always does.
   */
  lemma ForwardRestoresExactly(f: Files, assets: seq<Stage>, swaps: seq<Swap>, g: Files)
    requires |assets| == |swaps| && Installed(f, assets, swaps, g) && AllApart(assets, swaps)
    ensures AgreeOn(f, RollbackForward(g, swaps), Targets(assets)) <==> RepeatsOriginal(f, assets)
    ensures AgreeOn(f, RollbackAll(g, swaps), Targets(assets))
  {
    LaterRollback(f, assets, swaps, g, g);
    InstalledTargets(f, assets, swaps, g);
    forall j | 0 <= j < |assets| ensures swaps[j].target == assets[j].target {
      BackupHolds(f, assets, swaps, g, j);
    }
    var r := RollbackForward(g, swaps);
    forall j | 0 <= j < |assets| && LastFor(assets, j)
      ensures AgreeOn(f, r, {assets[j].target}) <==> Harmless(f, assets, j)
    {
      OneTarget(f, assets, swaps, g, j);
    }
    hide RollbackForward, Installed, AllApart, RollbackAll, Harmless;
    Collect(f, assets, r);
  }

  ghost predicate Harmless(f: Files, assets: seq<Stage>, j: nat)
    requires j < |assets|
  {
    forall i | 0 <= i < j && Before(assets, i, j) ::
      assets[j].target in f && assets[i].temp in f && f[assets[i].temp] == f[assets[j].target]
  }

  lemma OneTarget(f: Files, assets: seq<Stage>, swaps: seq<Swap>, g: Files, j: nat)
    requires |assets| == |swaps| && Installed(f, assets, swaps, g) && AllApart(assets, swaps)
    requires Replaced(swaps) == Targets(assets) && forall i | 0 <= i < |swaps| :: swaps[i].target == assets[i].target
    requires j < |assets| && LastFor(assets, j)
    ensures AgreeOn(f, RollbackForward(g, swaps), {assets[j].target}) <==> Harmless(f, assets, j)
  {
    BackupHolds(f, assets, swaps, g, j);
    ForwardTarget(assets, swaps, g, j);
    FirstOrBefore(assets, j, j);
    hide Installed, AllApart, RollbackForward;
    if !First(assets, j) {
      var i :| 0 <= i < j && Before(assets, i, j);
      assert forall k | 0 <= k < j && Before(assets, k, j) :: k == i;
    }
  }

  lemma {:induction false} LastOf(assets: seq<Stage>, i: nat) returns (j: nat)
    requires i < |assets|
    ensures i <= j < |assets| && assets[j].target == assets[i].target && LastFor(assets, j)
    decreases |assets| - i
  {
    if LastFor(assets, i) {
      j := i;
    } else {
      var k :| i < k < |assets| && assets[k].target == assets[i].target;
      j := LastOf(assets, k);
    }
  }

  lemma Collect(f: Files, assets: seq<Stage>, r: Files)
    requires forall j | 0 <= j < |assets| && LastFor(assets, j) :: AgreeOn(f, r, {assets[j].target}) <==> Harmless(f, assets, j)
    ensures AgreeOn(f, r, Targets(assets)) <==> RepeatsOriginal(f, assets)
  {
    assert RepeatsOriginal(f, assets) <==> forall j | 0 <= j < |assets| && LastFor(assets, j) :: Harmless(f, assets, j);
    if forall j | 0 <= j < |assets| && LastFor(assets, j) :: Harmless(f, assets, j) {
      forall p | p in Targets(assets) ensures AgreeOn(f, r, {p}) {
        var i :| 0 <= i < |assets| && assets[i].target == p;
        var j := LastOf(assets, i);
      }
    }
    if AgreeOn(f, r, Targets(assets)) {
      forall j | 0 <= j < |assets| && LastFor(assets, j) ensures Harmless(f, assets, j) {
        assert assets[j].target in Targets(assets);
        assert AgreeOn(f, r, {assets[j].target});
      }
    }
  }

  /** Two stages for one target: undoing them in the order they were made loses the original. */
  lemma ForwardLosesOriginal(assets: seq<Stage>, swaps: seq<Swap>, f: Files, g: Files)
    requires assets == [Stage(0, 1), Stage(0, 2)] && swaps == [Swap(0, 3, true), Swap(0, 4, true)]
    requires f == map[0 := 10, 1 := 11, 2 := 12] && g == map[0 := 12, 3 := 10, 4 := 11]
    ensures Installed(f, assets, swaps, g)
    ensures !AgreeOn(f, RollbackForward(g, swaps), Targets(assets))
  {
    TwoSwaps(assets[0], assets[1], swaps[0], swaps[1], f, map[0 := 11, 2 := 12, 3 := 10], g);
    assert Before(assets, 0, 1) && LastFor(assets, 1);
    assert !RepeatsOriginal(f, assets);
    hide Installed, RollbackForward;
    assert AllApart(assets, swaps);
    ForwardRestoresExactly(f, assets, swaps, g);
  }
}
