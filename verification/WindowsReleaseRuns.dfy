// What any number of runs of the release script leave behind, crashes and failed builds included.
module WindowsReleaseRuns {
  import opened Common
  import opened WindowsRelease

  // A run that is not interrupted and whose build succeeds without touching the checkout.
  const GOOD: Env := Env(true, 5, true, None)

  // git reset --hard and git clean: what a developer does after a crashed run.
  function Reset(r: Repo): Repo
    requires r.head < |r.commits|
  {
    r.(worktree := HeadTree(r), index := HeadTree(r), untracked := false)
  }

  // Others may dirty the checkout during the build, but neither commit nor tag.
  ghost predicate Quiet(env: Env) {
    env.duringBuild.Some? ==>
      var d := env.duringBuild.value;
      d.commits == [] && d.head.None? && d.tags == map[]
  }

  // The commit the build runs at.
  function Prepared(r: Repo): Repo
    requires r.head < |r.commits|
  {
    var d := Decide(r, true);
    if d.Go? then ApplyAll(r, d.effects) else r
  }

  function Released(r: Repo): Repo
    requires r.head < |r.commits|
  {
    Release(r, GOOD).0
  }

  // The two text edits hit the package's own version lines.
  predicate EditsHit(r: Repo) {
    var m, lock := r.worktree.manifest, r.worktree.lock;
    && m.version.Stable?
    && m.plain
    && var k := EditedEntry(lock, m.name, m.version.version);
    && k < |lock| && IsOwn(lock[k], m.name)
  }

  predicate SafeEdit(r: Repo)
    requires r.head < |r.commits|
  {
    NeedsBump(r) ==> EditsHit(r)
  }

  // ---------------------------------------------------------------- the workspace's own lock entry

  lemma {:induction false} OneKept<T>(s: seq<T>, k: nat, x: T, keep: T -> bool)
    requires k < |s| && |Filter(s, keep)| == 1 && keep(s[k]) && keep(x)
    ensures Filter(s, keep) == [s[k]] && Filter(s[k := x], keep) == [x]
  {
    var rest := s[1..];
    if k == 0 {
      assert s[0 := x][1..] == rest;
    } else {
      var idx := FilterEmbeds(rest, keep);
      assert rest[k - 1] in Filter(rest, keep);
      OneKept(rest, k - 1, x, keep);
      assert s[k := x][1..] == rest[k - 1 := x];
    }
  }

  lemma {:induction false} NoneKept<T>(s: seq<T>, k: nat, x: T, keep: T -> bool)
    requires k < |s| && !keep(s[k]) && !keep(x)
    ensures Filter(s[k := x], keep) == Filter(s, keep)
  {
    if k == 0 {
      assert s[0 := x][1..] == s[1..];
    } else {
      NoneKept(s[1..], k - 1, x, keep);
      assert s[k := x][1..] == s[1..][k - 1 := x];
    }
  }

  // After the edit the workspace's own entry carries the new version exactly when the edit hit it.
  lemma LockAfterEdit(lock: seq<LockEntry>, name: string, v: Version, next: Version)
    requires v != next && |OwnEntries(lock, name)| == 1 && OwnEntries(lock, name)[0].version == Stable(v)
    ensures var k := EditedEntry(lock, name, v);
            && k < |lock|
            && EditLock(lock, name, v, next).Some?
            && var after := OwnEntries(EditLock(lock, name, v, next).value, name);
            && |after| == 1
            && after[0].version == (if IsOwn(lock[k], name) then Stable(next) else Stable(v))
  {
    var idx := FilterEmbeds(lock, OwnTest(name));
    var own := idx[0];
    assert lock[own] == OwnEntries(lock, name)[0];
    var start := FirstNamed(lock, name);
    assert start <= own && lock[own].version == Stable(v);
    var k := EditedEntry(lock, name, v);
    var entry := lock[k].(version := Stable(next));
    if IsOwn(lock[k], name) {
      OneKept(lock, k, entry, OwnTest(name));
    } else {
      NoneKept(lock, k, entry, OwnTest(name));
    }
  }

  // ---------------------------------------------------------------- what a run decides

  // The version is tagged, but not at HEAD.
  predicate TaggedElsewhere(r: Repo, v: Version) {
    v in r.tags && r.tags[v] != r.head
  }

  // Nothing is changed, staged or untracked.
  predicate Untouched(r: Repo) {
    r.head < |r.commits| && r.worktree == r.commits[r.head].tree && r.index == r.worktree && !r.untracked
  }

  // Exactly one lock entry is the workspace's own, and it carries the version.
  ghost predicate LockAgrees(t: Tree) {
    exists k :: OnlyOwn(t, k) && t.lock[k].version == t.manifest.version
  }

  ghost predicate OnlyOwn(t: Tree, k: int) {
    && 0 <= k < |t.lock|
    && forall j :: 0 <= j < |t.lock| ==> (t.lock[j].name == t.manifest.name && !t.lock[j].hasSource <==> j == k)
  }

  lemma OwnEntriesExact(t: Tree)
    ensures var own := OwnEntries(t.lock, t.manifest.name);
            |own| == 1 && own[0].version == t.manifest.version <==> LockAgrees(t)
  {
    var keep := OwnTest(t.manifest.name);
    var own := OwnEntries(t.lock, t.manifest.name);
    var idx := FilterEmbeds(t.lock, keep);
    if |own| == 1 && own[0].version == t.manifest.version {
      forall j | 0 <= j < |t.lock| && keep(t.lock[j]) ensures j == idx[0] {
        FilterCountsEach(t.lock, keep, j, idx[0]);
      }
      assert OnlyOwn(t, idx[0]);
    }
    var firstTwo := if |idx| > 1 then (idx[0], idx[1]) else (0, 1);
    if LockAgrees(t) {
      var k :| OnlyOwn(t, k) && t.lock[k].version == t.manifest.version;
      assert keep(t.lock[k]) && t.lock[k] in own;
      forall j | 0 <= j < |idx| ensures idx[j] == k {
        assert keep(t.lock[idx[j]]);
      }
      assert firstTwo.0 != firstTwo.1;
    }
  }

  // Two kept positions need two kept elements.
  lemma {:induction false} FilterCountsEach<T>(s: seq<T>, keep: T -> bool, i: nat, j: nat)
    requires i < |s| && j < |s| && keep(s[i]) && keep(s[j]) && |Filter(s, keep)| == 1
    ensures i == j
  {
    if i > 0 && j > 0 {
      FilterHas(s[1..], keep, i - 1);
      FilterCountsEach(s[1..], keep, i - 1, j - 1);
    } else if i != j {
      FilterHas(s[1..], keep, Max(i, j) - 1);
    }
  }

  // The manifest holds a plain line with this version, be it the package's or a later one.
  predicate HasPlainLine(m: Manifest, v: Version) {
    (m.plain && m.version == Stable(v)) || Stable(v) in m.laterVersions
  }

  // The checks that do not look at tags, in order: each refusal exactly when everything before it passed.
  lemma RefusalsInOrder(r: Repo, releaseProfile: bool)
    requires r.head < |r.commits|
    ensures Decide(r, releaseProfile) == Refuse(WrongProfile) <==> !releaseProfile
    ensures Decide(r, releaseProfile) == Refuse(Dirty) <==> releaseProfile && !Untouched(r)
    ensures Decide(r, releaseProfile) == Refuse(Shallow) <==> releaseProfile && Untouched(r) && r.shallow
    ensures Decide(r, releaseProfile) == Refuse(Detached) <==>
            releaseProfile && Untouched(r) && !r.shallow && !r.onBranch
    ensures Decide(r, releaseProfile) == Refuse(UnstableVersion) <==>
            releaseProfile && Untouched(r) && !r.shallow && r.onBranch && r.worktree.manifest.version.Other?
    ensures Decide(r, releaseProfile) == Refuse(LockMismatch) <==>
            && releaseProfile && Untouched(r) && !r.shallow && r.onBranch
            && r.worktree.manifest.version.Stable? && !LockAgrees(r.worktree)
  {
    OwnEntriesExact(r.worktree);
  }

  // Everything that does not depend on tags is in order.
  ghost predicate Releasable(r: Repo, releaseProfile: bool) {
    && releaseProfile && Untouched(r) && !r.shallow && r.onBranch
    && r.worktree.manifest.version.Stable? && LockAgrees(r.worktree)
  }

  lemma ReleasablePasses(r: Repo, releaseProfile: bool)
    requires r.head < |r.commits|
    ensures Releasable(r, releaseProfile) <==> Preflight(r, releaseProfile) == None
  {
    OwnEntriesExact(r.worktree);
  }

  // What is then decided: a version tagged elsewhere is raised by one patch, unless that is tagged too or the
  // manifest has no plain line to raise; otherwise the version is released as it is.
  lemma DecisionMeans(r: Repo, releaseProfile: bool)
    requires r.head < |r.commits| && Releasable(r, releaseProfile)
    ensures var v := r.worktree.manifest.version.version;
            var next := Version(v.major, v.minor, v.patch + 1);
            var d := Decide(r, releaseProfile);
            if TaggedElsewhere(r, v) then
              && (d == Refuse(NextExists) <==> next in r.tags)
              && (d == Refuse(NoVersionLine) <==> next !in r.tags && !HasPlainLine(r.worktree.manifest, v))
              && (d.Refuse? ==> d.reason in {NextExists, NoVersionLine})
              && (d.Go? ==> d.version == next && d.tagMissing && |d.effects| == 4)
            else
              && d.Go? && d.version == v && d.tagMissing == (v !in r.tags)
              && |d.effects| == if v in r.tags || r.commits[r.head].subject == PrepareRelease(v) then 0 else 1
  {
    var m, lock := r.worktree.manifest, r.worktree.lock;
    var v := m.version.version;
    ReleasablePasses(r, releaseProfile);
    LockAfterEdit(lock, m.name, v, NextVersion(v));
  }

  // ---------------------------------------------------------------- what the build's end decides

  // The repository the build leaves, its effects done.
  function Built(r: Repo, env: Env): Repo
    requires r.head < |r.commits| && Decide(r, env.releaseProfile).Go?
  {
    Disturb(ApplyAll(r, Decide(r, env.releaseProfile).effects), env.duringBuild)
  }

  // The build left HEAD where the effects put it, and the checkout untouched.
  predicate LeftAlone(r: Repo, env: Env)
    requires r.head < |r.commits| && Decide(r, env.releaseProfile).Go?
  {
    Built(r, env).head == ApplyAll(r, Decide(r, env.releaseProfile).effects).head && Untouched(Built(r, env))
  }

  // How a run ends, exactly: each outcome with its condition, and the tags it leaves.
  lemma OutcomesExactly(r: Repo, env: Env)
    requires r.head < |r.commits|
    ensures var d := Decide(r, env.releaseProfile);
            var s, end := Release(r, env).0, Release(r, env).1;
            if d.Refuse? then s == r && end == Refused(d.reason)
            else if env.stopAfter < |d.effects| then s == ApplyAll(r, d.effects[..env.stopAfter]) && end == Crashed
            else
              var built, ready := Built(r, env), env.buildOk && LeftAlone(r, env);
              && (end == BuildFailed <==> !env.buildOk)
              && (end == CheckoutChanged <==> env.buildOk && !LeftAlone(r, env))
              && (end == Crashed <==> ready && d.tagMissing && env.stopAfter == |d.effects|)
              && (end == TagFailed <==> ready && d.tagMissing && env.stopAfter > |d.effects| && d.version in built.tags)
              && (end == Done(d.version) <==>
                    ready && (d.tagMissing ==> env.stopAfter > |d.effects| && d.version !in built.tags))
              && s == if end.Done? && d.tagMissing then built.(tags := built.tags[d.version := built.head]) else built
  {
  }

  // A run adds a tag only after its own build succeeded.
  lemma TagNeedsGoodBuild(r: Repo, env: Env, v: Version)
    requires Valid(r) && v !in r.tags && v in Release(r, env).0.tags
    requires env.duringBuild.Some? ==> v !in env.duringBuild.value.tags
    ensures env.buildOk && Decide(r, env.releaseProfile).Go? && Decide(r, env.releaseProfile).version == v
  {
    var d := Decide(r, env.releaseProfile);
    OutcomesExactly(r, env);
    if d.Go? {
      PrefixKeepsTags(r, d.effects);
      PrefixKeepsTags(r, d.effects[..Min(env.stopAfter, |d.effects|)]);
    }
  }

  // ---------------------------------------------------------------- one commit at most, and then settled

  lemma BumpResult(r: Repo, m: Manifest, lock: seq<LockEntry>, next: Version)
    requires r.head < |r.commits| && Clean(r)
    ensures var tree := r.worktree.(manifest := m, lock := lock);
            ApplyAll(r, BumpEffects(m, lock, next)) ==
            r.(worktree := tree, index := tree, head := |r.commits|,
               commits := r.commits + [Commit(tree, PrepareRelease(next), Some(r.head))])
  {
    FourEffects(r, BumpEffects(m, lock, next));
  }

  lemma CommitResult(r: Repo, v: Version)
    requires r.head < |r.commits| && Clean(r)
    ensures ApplyAll(r, [MakeCommit(PrepareRelease(v))]) ==
            r.(head := |r.commits|, commits := r.commits + [Commit(r.worktree, PrepareRelease(v), Some(r.head))])
  {
    NoneOrOne(r, MakeCommit(PrepareRelease(v)));
  }

  // A bump makes one commit that carries the next version's message, is clean, and is strictly newer.
  lemma PreparedAfterBump(r: Repo)
    requires Valid(r) && NeedsBump(r) && Decide(r, true).Go?
    ensures var v, p := r.worktree.manifest.version.version, Prepared(r);
            && Valid(p) && Clean(p) && p.tags == r.tags && |p.commits| == |r.commits| + 1
            && p.head == |r.commits| && p.shallow == r.shallow && p.onBranch == r.onBranch
            && NextVersion(v) == Version(v.major, v.minor, v.patch + 1)
            && NextVersion(v) !in p.tags && VersionLt(v, NextVersion(v))
            && p.commits[p.head].subject == PrepareRelease(NextVersion(v))
            && p.worktree.manifest.name == r.worktree.manifest.name
            && p.worktree.manifest.version == Stable(if r.worktree.manifest.plain then NextVersion(v) else v)
    ensures var v, name := r.worktree.manifest.version.version, r.worktree.manifest.name;
            var k := EditedEntry(r.worktree.lock, name, v);
            && k < |r.worktree.lock|
            && var own := OwnEntries(Prepared(r).worktree.lock, name);
            && |own| == 1
            && own[0].version == Stable(if IsOwn(r.worktree.lock[k], name) then NextVersion(v) else v)
  {
    var m, lock := r.worktree.manifest, r.worktree.lock;
    var v := m.version.version;
    var next := NextVersion(v);
    LockAfterEdit(lock, m.name, v, next);
    BumpResult(r, EditManifest(m, v, next).value, EditLock(lock, m.name, v, next).value, next);
  }

  // A bump's two edits change one version line each, the first that fits: the package's own line if it is
  // plain, else the first later plain line; in the lock, the first entry at the version from the first entry
  // of the package's name on.
  lemma BumpEditsOneLineEach(r: Repo)
    requires Valid(r) && NeedsBump(r) && Decide(r, true).Go?
    ensures var before, after, v := r.worktree, Prepared(r).worktree, r.worktree.manifest.version.version;
            var next := Stable(Version(v.major, v.minor, v.patch + 1));
            && after.files == before.files
            && (before.manifest.plain ==> after.manifest == before.manifest.(version := next))
            && (!before.manifest.plain ==>
                  exists k :: FirstLine(before.manifest.laterVersions, Stable(v), k)
                              && after.manifest == before.manifest.(laterVersions := before.manifest.laterVersions[k := next]))
            && exists k :: FirstLockLine(before.lock, before.manifest.name, Stable(v), k)
                           && after.lock == before.lock[k := before.lock[k].(version := next)]
  {
    var m, lock := r.worktree.manifest, r.worktree.lock;
    var v := m.version.version;
    var next := NextVersion(v);
    LockAfterEdit(lock, m.name, v, next);
    BumpResult(r, EditManifest(m, v, next).value, EditLock(lock, m.name, v, next).value, next);
    if !m.plain {
      assert FirstLine(m.laterVersions, Stable(v), FirstVersion(m.laterVersions, Stable(v)));
    }
    LockLineIsFirst(lock, m.name, v);
  }

  predicate FirstLine(lines: seq<VersionText>, v: VersionText, k: int) {
    0 <= k < |lines| && lines[k] == v && forall i :: 0 <= i < k ==> lines[i] != v
  }

  // No entry before k has the version once an entry of the name was passed.
  ghost predicate FirstLockLine(lock: seq<LockEntry>, name: string, v: VersionText, k: int) {
    && 0 <= k < |lock| && lock[k].version == v
    && (exists i :: 0 <= i <= k && lock[i].name == name)
    && forall i, j :: 0 <= i <= j < k && lock[i].name == name ==> lock[j].version != v
  }

  lemma LockLineIsFirst(lock: seq<LockEntry>, name: string, v: Version)
    requires EditedEntry(lock, name, v) < |lock|
    ensures FirstLockLine(lock, name, Stable(v), EditedEntry(lock, name, v))
  {
    var start := FirstNamed(lock, name);
    assert start <= EditedEntry(lock, name, v) && lock[start].name == name;
  }

  // Without a bump an untagged version gets one empty commit that announces it, unless HEAD does already.
  lemma PreparedWithoutBump(r: Repo)
    requires Valid(r) && !NeedsBump(r) && Decide(r, true).Go?
    ensures var v := r.worktree.manifest.version.version;
            Prepared(r) ==
            if v in r.tags || r.commits[r.head].subject == PrepareRelease(v) then r
            else r.(head := |r.commits|,
                    commits := r.commits + [Commit(HeadTree(r), PrepareRelease(v), Some(r.head))])
  {
    CommitResult(r, r.worktree.manifest.version.version);
  }

  lemma PreparedFacts(r: Repo)
    requires Valid(r) && Decide(r, true).Go?
    ensures var d, p := Decide(r, true), Prepared(r);
            && Valid(p) && Clean(p) && p.tags == r.tags && |r.commits| <= |p.commits| <= |r.commits| + 1
            && |d.effects| <= 4
            && (d.tagMissing <==> d.version !in r.tags)
  {
    if NeedsBump(r) {
      PreparedAfterBump(r);
    } else if Decide(r, true).effects != [] {
      CommitResult(r, r.worktree.manifest.version.version);
    }
  }

  // Preparing twice is preparing once: a retry finds its own commit and makes no other, exactly when a
  // bump's edits hit.
  lemma PreparedIsSettled(r: Repo)
    requires Valid(r) && Decide(r, true).Go?
    ensures var d, p := Decide(r, true), Prepared(r);
            && Valid(p) && Clean(p) && p.tags == r.tags && |p.commits| <= |r.commits| + 1
            && (Decide(p, true) == Go([], d.version, d.tagMissing) <==> SafeEdit(r))
            && (SafeEdit(r) ==> !NeedsBump(p))
  {
    PreparedFacts(r);
    if NeedsBump(r) {
      PreparedAfterBump(r);
    } else if Decide(r, true).effects != [] {
      CommitResult(r, r.worktree.manifest.version.version);
    }
  }

  // A run that goes through tags HEAD, unless HEAD already carries the tag, and then nothing is left to
  // do, exactly when a bump's edits hit.
  lemma ReleasedIs(r: Repo)
    requires Valid(r) && Decide(r, true).Go?
    ensures var d, p, s := Decide(r, true), Prepared(r), Released(r);
            && s == (if d.tagMissing then p.(tags := p.tags[d.version := p.head]) else p)
            && Release(r, GOOD).1 == Done(d.version)
            && Valid(s) && Clean(s)
            && (Decide(s, true) == Go([], d.version, false) <==> SafeEdit(r))
            && (SafeEdit(r) ==> !NeedsBump(s))
  {
    PreparedFacts(r);
    var d, p := Decide(r, true), Prepared(r);
    assert Release(r, GOOD) == AfterBuild(p, d.version, d.tagMissing, GOOD, false);
    if NeedsBump(r) {
      PreparedAfterBump(r);
    } else if d.effects != [] {
      CommitResult(r, d.version);
    }
  }

  // A run would be refused, or its edits hit.
  predicate SafeToRetry(r: Repo)
    requires r.head < |r.commits|
  {
    Decide(r, true).Go? ==> SafeEdit(r)
  }

  // Released and prepared states stay where they are.
  lemma SettledStates(r: Repo)
    requires Valid(r) && Clean(r) && SafeToRetry(r)
    ensures forall s :: s == Prepared(r) || s == Released(r) ==>
              && Valid(s) && Clean(s) && SafeToRetry(s)
              && Prepared(s) == s && Released(s) == Released(r)
  {
    if Decide(r, true).Go? {
      PreparedIsSettled(r);
      ReleasedIs(r);
      ReleasedIs(Prepared(r));
      ReleasedIs(Released(r));
    }
  }

  // ---------------------------------------------------------------- crashes and retries

  lemma {:induction false} BumpPrefixKeepsHistory(r: Repo, m: Manifest, lock: seq<LockEntry>, next: Version, n: nat)
    requires n < 4
    ensures var p := ApplyAll(r, BumpEffects(m, lock, next)[..n]);
            p == r.(worktree := p.worktree, index := p.index)
  {
    FourEffects(r, BumpEffects(m, lock, next));
  }

  lemma QuietDisturbance(r: Repo, env: Env)
    requires r.head < |r.commits| && Quiet(env)
    ensures var q := Disturb(r, env.duringBuild);
            q == r.(worktree := q.worktree, index := q.index, untracked := q.untracked)
  {
    if env.duringBuild.Some? {
      var d := env.duringBuild.value;
      assert r.commits + d.commits == r.commits;
      assert TagsWithin(d.tags, |r.commits|) == map[];
      assert map[] + r.tags == r.tags;
    }
  }

  // A crash before the last effect leaves only edited files behind.
  lemma CrashIsReset(r: Repo, n: nat)
    requires Valid(r) && Decide(r, true).Go? && n < |Decide(r, true).effects|
    ensures var s := ApplyAll(r, Decide(r, true).effects[..n]); s.head < |s.commits| && Reset(s) == r
  {
    if NeedsBump(r) {
      var m, lock, v := r.worktree.manifest, r.worktree.lock, r.worktree.manifest.version.version;
      var next := NextVersion(v);
      BumpPrefixKeepsHistory(r, EditManifest(m, v, next).value, EditLock(lock, m.name, v, next).value, next, n);
    } else {
      assert n == 0 && ApplyAll(r, Decide(r, true).effects[..0]) == r;
    }
  }

  // A build others may only dirty leaves, once reset, what it was given, perhaps with the tag added.
  lemma BuildIsReset(p: Repo, v: Version, tagMissing: bool, env: Env, dies: bool)
    requires Valid(p) && Clean(p) && Quiet(env)
    ensures var s := AfterBuild(p, v, tagMissing, env, dies).0;
            && s.head < |s.commits|
            && (Reset(s) == p || (tagMissing && Reset(s) == p.(tags := p.tags[v := p.head])))
  {
    QuietDisturbance(p, env);
  }

  // However a run ends, once the checkout is reset it is where it started, prepared, or released.
  lemma AttemptReaches(r: Repo, env: Env)
    requires Valid(r) && Clean(r) && Quiet(env)
    ensures var s := Release(r, env).0;
            s.head < |s.commits| && (Reset(s) == r || Reset(s) == Prepared(r) || Reset(s) == Released(r))
  {
    var d := Decide(r, env.releaseProfile);
    if d.Go? {
      if env.stopAfter < |d.effects| {
        CrashIsReset(r, env.stopAfter);
      } else {
        PreparedFacts(r);
        ReleasedIs(r);
        BuildIsReset(Prepared(r), d.version, d.tagMissing, env, env.stopAfter == |d.effects|);
      }
    }
  }

  // Any number of attempts, the checkout reset after each.
  function Attempts(r: Repo, envs: seq<Env>): Repo
    requires r.head < |r.commits|
    decreases |envs|
  {
    if envs == [] then r
    else
      var s := Release(r, envs[0]).0;
      if s.head < |s.commits| then Attempts(Reset(s), envs[1..]) else s
  }

  ghost predicate AllQuiet(envs: seq<Env>) {
    forall k :: 0 <= k < |envs| ==> Quiet(envs[k])
  }

  lemma {:induction false} AttemptsReach(r: Repo, envs: seq<Env>)
    requires Valid(r) && Clean(r) && SafeToRetry(r) && AllQuiet(envs)
    ensures var s := Attempts(r, envs); s == r || s == Prepared(r) || s == Released(r)
    decreases |envs|
  {
    if envs != [] {
      AttemptReaches(r, envs[0]);
      SettledStates(r);
      AttemptsReach(Reset(Release(r, envs[0]).0), envs[1..]);
    }
  }

  // The run that goes through after these attempts leaves what a first, undisturbed run would have left.
  predicate Converges(r: Repo, envs: seq<Env>)
    requires r.head < |r.commits|
  {
    var s := Attempts(r, envs);
    s.head < |s.commits| && Released(s) == Released(r)
  }

  // Crash anywhere, fail the build, as often as you like: the run that finally goes through leaves
  // exactly the repository that a first, undisturbed run would have left, with one commit at most.
  lemma RetriesConverge(r: Repo, envs: seq<Env>)
    requires Valid(r) && Clean(r) && SafeToRetry(r) && AllQuiet(envs)
    ensures Converges(r, envs)
    ensures |r.commits| <= |Attempts(r, envs).commits| <= |r.commits| + 1
  {
    AttemptsReach(r, envs);
    SettledStates(r);
    if Decide(r, true).Go? {
      PreparedFacts(r);
      ReleasedIs(r);
    }
  }

  // The edits' aim is exactly what this rests on: when they miss, a failed build is enough to diverge.
  lemma RetryConvergesIffEditsHit(r: Repo)
    requires Valid(r) && Decide(r, true).Go?
    ensures var failed := Release(r, Env(true, 4, false, None)).0;
            failed.head < |failed.commits| && (Released(Reset(failed)) == Released(r) <==> SafeEdit(r))
  {
    var env := Env(true, 4, false, None);
    if SafeEdit(r) {
      AttemptReaches(r, env);
      SettledStates(r);
    } else {
      PreparedAfterBump(r);
      var p, v := Prepared(r), r.worktree.manifest.version.version;
      assert Release(r, env).0 == p && Reset(p) == p;
      assert Release(r, GOOD) == AfterBuild(p, NextVersion(v), true, GOOD, false);
      assert NextVersion(v) in Released(r).tags && |Released(r).commits| == |p.commits|;
      if Decide(p, true).Go? {
        assert NeedsBump(p);
        PreparedAfterBump(p);
        assert Release(p, GOOD) == AfterBuild(Prepared(p), NextVersion(v), true, GOOD, false);
        assert |Released(p).commits| == |p.commits| + 1;
      } else {
        assert Released(p) == p;
      }
    }
  }

  // For every clean repository: all attempts converge if and only if a run would be refused or its edits
  // hit the package's own version lines.
  lemma RetriesConvergeExactly(r: Repo)
    requires Valid(r) && Clean(r)
    ensures (forall envs :: AllQuiet(envs) ==> Converges(r, envs)) <==> SafeToRetry(r)
  {
    if SafeToRetry(r) {
      forall envs | AllQuiet(envs) ensures Converges(r, envs) {
        RetriesConverge(r, envs);
      }
    } else {
      var failing := [Env(true, 4, false, None)];
      RetryConvergesIffEditsHit(r);
      assert AllQuiet(failing);
      assert Attempts(r, failing) == Reset(Release(r, failing[0]).0) by {
        assert failing[1..] == [];
      }
      assert !Converges(r, failing);
    }
  }

  // ---------------------------------------------------------------- two repositories whose edits miss

  // Version 1.0.0 is tagged at the first commit and HEAD is the second.
  function TaggedBehind(tree: Tree): Repo {
    var commits := [Commit(tree, OtherSubject("feature"), None), Commit(tree, OtherSubject("fix"), Some(0))];
    Repo(commits, 1, true, false, map[Version(1, 0, 0) := 0], tree, tree, false)
  }

  // The package's version line carries a comment, and a dependency table later on is at the same version.
  function CommentedVersion(files: Files): Tree {
    var v := Stable(Version(1, 0, 0));
    Tree(Manifest("app", v, false, [v]), [LockEntry("app", v, false)], files)
  }

  // A registry package of the same name and version precedes the workspace's own lock entry.
  function ShadowedLockEntry(files: Files): Tree {
    var v := Stable(Version(1, 0, 0));
    Tree(Manifest("app", v, true, []), [LockEntry("app", v, true), LockEntry("app", v, false)], files)
  }

  lemma OwnEntriesOf(files: Files)
    ensures OwnEntries(CommentedVersion(files).lock, "app") == [CommentedVersion(files).lock[0]]
    ensures OwnEntries(ShadowedLockEntry(files).lock, "app") == [ShadowedLockEntry(files).lock[1]]
  {
    var a, b := CommentedVersion(files).lock, ShadowedLockEntry(files).lock;
    assert a[1..] == [] && b[1..] == [b[1]] && b[1..][1..] == [];
    assert Filter(b[1..], OwnTest("app")) == [b[1]];
  }

  // The manifest edit misses: the run goes through and tags a commit that still says the old version.
  lemma CommentedVersionIsMissed(files: Files)
    ensures var r := TaggedBehind(CommentedVersion(files));
            && Valid(r) && Clean(r) && NeedsBump(r) && Decide(r, true).Go? && !EditsHit(r) && !SafeToRetry(r)
            && var s := Released(r);
            && Version(1, 0, 1) in s.tags && s.tags[Version(1, 0, 1)] == s.head < |s.commits|
            && HeadTree(s).manifest.version == Stable(Version(1, 0, 0))
  {
    var r := TaggedBehind(CommentedVersion(files));
    OwnEntriesOf(files);
    LockAfterEdit(r.worktree.lock, "app", Version(1, 0, 0), Version(1, 0, 1));
    assert Decide(r, true).Go?;
    PreparedAfterBump(r);
    ReleasedIs(r);
  }

  // The lock edit misses: the commit's manifest and lock disagree, and a retry is refused.
  lemma ShadowedLockEntryIsMissed(files: Files)
    ensures var r := TaggedBehind(ShadowedLockEntry(files));
            && Valid(r) && Clean(r) && NeedsBump(r) && Decide(r, true).Go? && !EditsHit(r) && !SafeToRetry(r)
            && Prepared(r).head < |Prepared(r).commits| && Decide(Prepared(r), true) == Refuse(LockMismatch)
  {
    var r := TaggedBehind(ShadowedLockEntry(files));
    OwnEntriesOf(files);
    LockAfterEdit(r.worktree.lock, "app", Version(1, 0, 0), Version(1, 0, 1));
    assert Decide(r, true).Go?;
    PreparedAfterBump(r);
  }

  // ---------------------------------------------------------------- after success

  // After a successful run, running it again changes nothing but what the build itself disturbs.
  lemma DoneIsFinal(r: Repo, env: Env, again: Env)
    requires Valid(r) && Release(r, env).1.Done?
    ensures var s := Release(r, env).0;
            s.head < |s.commits| &&
            (Release(s, again).0 == s || Release(s, again).0 == Disturb(s, again.duringBuild))
  {
    var s := Release(r, env).0;
    DoneStates(r, env);
    if Decide(s, again.releaseProfile).Go? {
      assert ApplyAll(s, []) == s;
    }
  }

  // Where a successful run ends, nothing is left to do.
  lemma DoneStates(r: Repo, env: Env)
    requires Valid(r) && Release(r, env).1.Done?
    ensures var s := Release(r, env).0;
            s.head < |s.commits| && (forall p :: Decide(s, p).Go? ==> Decide(s, p).effects == [] && !Decide(s, p).tagMissing)
  {
    var d := Decide(r, true);
    var p, s := Prepared(r), Release(r, env).0;
    assert Release(r, env) == AfterBuild(p, d.version, d.tagMissing, env, env.stopAfter == |d.effects|);
    var built := Disturb(p, env.duringBuild);
    if NeedsBump(r) {
      PreparedAfterBump(r);
      assert s.commits[s.head] == p.commits[p.head];
    } else if d.effects != [] {
      CommitResult(r, d.version);
      assert s.commits[s.head] == p.commits[p.head];
    } else {
      assert p == r;
      assert s.commits[s.head] == p.commits[p.head];
    }
  }

  // ---------------------------------------------------------------- tags

  // A tag that a run adds was built successfully and points at the clean HEAD commit it was built from, whose
  // message announces that version; the manifest there carries the version exactly when the edit hit.
  lemma CreatedTagNamesItsCommit(r: Repo, env: Env, v: Version)
    requires Valid(r) && v !in r.tags && v in Release(r, env).0.tags
    requires env.duringBuild.Some? ==> v !in env.duringBuild.value.tags
    ensures var s := Release(r, env).0;
            && env.releaseProfile && env.buildOk && Release(r, env).1 == Done(v)
            && s.head < |s.commits| && s.tags[v] == s.head && Clean(s)
            && s.commits[s.head].subject == PrepareRelease(v)
            && (HeadTree(s).manifest.version == Stable(v) <==> (NeedsBump(r) ==> r.worktree.manifest.plain))
  {
    var d := Decide(r, env.releaseProfile);
    var p, s := Prepared(r), Release(r, env).0;
    if env.stopAfter < |d.effects| {
      PrefixKeepsTags(r, d.effects[..env.stopAfter]);
    } else {
      PrefixKeepsTags(r, d.effects);
      assert Release(r, env) == AfterBuild(p, d.version, d.tagMissing, env, env.stopAfter == |d.effects|);
      if NeedsBump(r) {
        PreparedAfterBump(r);
      } else if d.effects != [] {
        CommitResult(r, d.version);
      } else {
        assert p == r;
      }
      assert s.commits[s.head] == p.commits[p.head];
    }
  }

  lemma {:induction false} PrefixKeepsTags(r: Repo, es: seq<Effect>)
    ensures ApplyAll(r, es).tags == r.tags
    decreases |es|
  {
    if es != [] {
      PrefixKeepsTags(Apply(r, es[0]), es[1..]);
    }
  }

  // Nothing the script does, and nothing others may do, moves a tag or rewrites a commit.
  ghost predicate Extends(a: Repo, b: Repo) {
    && a.commits <= b.commits
    && (forall v :: v in a.tags ==> v in b.tags && b.tags[v] == a.tags[v])
  }

  lemma {:induction false} EffectsExtend(r: Repo, es: seq<Effect>)
    requires Valid(r)
    ensures Valid(ApplyAll(r, es)) && Extends(r, ApplyAll(r, es))
    decreases |es|
  {
    if es != [] {
      EffectsExtend(Apply(r, es[0]), es[1..]);
    }
  }

  lemma DisturbanceExtends(r: Repo, d: Option<Disturbance>)
    requires Valid(r)
    ensures Valid(Disturb(r, d)) && Extends(r, Disturb(r, d))
  {
    if d.Some? {
      assert r.commits <= r.commits + d.value.commits;
    }
  }

  lemma BuildExtends(r: Repo, v: Version, tagMissing: bool, env: Env, dies: bool)
    requires Valid(r)
    ensures var s := AfterBuild(r, v, tagMissing, env, dies).0; Valid(s) && Extends(r, s)
  {
    DisturbanceExtends(r, env.duringBuild);
  }

  lemma ReleaseExtends(r: Repo, env: Env)
    requires Valid(r)
    ensures Valid(Release(r, env).0) && Extends(r, Release(r, env).0)
  {
    var d := Decide(r, env.releaseProfile);
    if d.Go? {
      if env.stopAfter < |d.effects| {
        EffectsExtend(r, d.effects[..env.stopAfter]);
      } else {
        EffectsExtend(r, d.effects);
        BuildExtends(ApplyAll(r, d.effects), d.version, d.tagMissing, env, env.stopAfter == |d.effects|);
      }
    }
  }

  // ---------------------------------------------------------------- histories

  datatype Event = Run(env: Env) | Outside(change: Disturbance)

  function After(r: Repo, e: Event): Repo
    requires r.head < |r.commits|
  {
    if e.Run? then Release(r, e.env).0 else Disturb(r, Some(e.change))
  }

  // rs[n] is the repository after the first n events.
  ghost predicate IsHistory(es: seq<Event>, rs: seq<Repo>) {
    && |rs| == |es| + 1
    && Valid(rs[0])
    && forall n: nat {:trigger Moment(n)} ::
         n < |es| && Moment(n) ==> rs[n].head < |rs[n].commits| && rs[n + 1] == After(rs[n], es[n])
  }

  lemma {:induction false} HistoriesOnlyExtend(es: seq<Event>, rs: seq<Repo>, m: nat, n: nat)
    requires IsHistory(es, rs) && m <= n <= |es|
    ensures Valid(rs[m]) && Valid(rs[n]) && Extends(rs[m], rs[n])
    decreases n
  {
    if n > 0 {
      HistoriesOnlyExtend(es, rs, Min(m, n - 1), n - 1);
      assert Moment(n - 1);
      if es[n - 1].Run? {
        ReleaseExtends(rs[n - 1], es[n - 1].env);
      } else {
        DisturbanceExtends(rs[n - 1], Some(es[n - 1].change));
      }
    }
  }

  // The script itself tagged v in step n.
  ghost predicate Tags(es: seq<Event>, rs: seq<Repo>, n: nat, v: Version) {
    && n < |es| && n + 1 < |rs| && es[n].Run?
    && v !in rs[n].tags && v in rs[n + 1].tags
    && (es[n].env.duringBuild.Some? ==> v !in es[n].env.duringBuild.value.tags)
  }

  // Whatever runs, crashes and outside changes follow, a tag the script made keeps pointing at a
  // commit whose manifest carries the tag's version.
  lemma TagsStayTruthful(es: seq<Event>, rs: seq<Repo>, n: nat, later: nat, v: Version)
    requires IsHistory(es, rs) && Tags(es, rs, n, v) && n < later <= |es|
    requires rs[n].head < |rs[n].commits| && (NeedsBump(rs[n]) ==> rs[n].worktree.manifest.plain)
    ensures var s := rs[later];
            && v in s.tags && s.tags[v] == rs[n + 1].tags[v] < |s.commits|
            && s.commits[s.tags[v]].tree.manifest.version == Stable(v)
            && s.commits[s.tags[v]].subject == PrepareRelease(v)
  {
    HistoriesOnlyExtend(es, rs, n, n);
    HistoriesOnlyExtend(es, rs, n + 1, later);
    assert Moment(n);
    CreatedTagNamesItsCommit(rs[n], es[n].env, v);
  }

  // A version is tagged by the script at most once.
  lemma TaggedOnce(es: seq<Event>, rs: seq<Repo>, m: nat, n: nat, v: Version)
    requires IsHistory(es, rs) && m < n && Tags(es, rs, m, v) && n < |es|
    ensures !Tags(es, rs, n, v)
  {
    HistoriesOnlyExtend(es, rs, m + 1, n);
  }
}
