// The release script as a program over a git repository (scripts/windows-release.py). Every effect it
// has is a separate step, so a crash is simply a run that stops after any number of them.
module WindowsRelease {
  import opened Common

  datatype Version = Version(major: nat, minor: nat, patch: nat)

  // Other stands for every version text that is not a plain major.minor.patch.
  datatype VersionText = Stable(version: Version) | Other(text: string)

  // Cargo.toml: the package table, and the version lines that follow the package's own. A version line
  // is plain when the whole line reads version = "..."; laterVersions lists only plain ones.
  datatype Manifest = Manifest(name: string, version: VersionText, plain: bool, laterVersions: seq<VersionText>)

  // Cargo.lock: one entry per package; the workspace's own entry has no source.
  datatype LockEntry = LockEntry(name: string, version: VersionText, hasSource: bool)

  // The files the script never edits.
  type Files(==, !new, 0)

  datatype Tree = Tree(manifest: Manifest, lock: seq<LockEntry>, files: Files)

  datatype Subject = PrepareRelease(version: Version) | OtherSubject(text: string)

  datatype Commit = Commit(tree: Tree, subject: Subject, parent: Option<nat>)

  datatype Repo = Repo(
    commits: seq<Commit>,
    head: nat,
    onBranch: bool,
    shallow: bool,
    tags: map<Version, nat>,
    worktree: Tree,
    index: Tree,
    untracked: bool)

  ghost predicate Valid(r: Repo) {
    && r.head < |r.commits|
    && forall v :: v in r.tags ==> r.tags[v] < |r.commits|
  }

  function HeadTree(r: Repo): Tree
    requires r.head < |r.commits|
  {
    r.commits[r.head].tree
  }

  // git status --porcelain prints nothing.
  predicate Clean(r: Repo)
    requires r.head < |r.commits|
  {
    r.worktree == r.index == HeadTree(r) && !r.untracked
  }

  function NextVersion(v: Version): Version {
    v.(patch := v.patch + 1)
  }

  predicate VersionLt(a: Version, b: Version) {
    || a.major < b.major
    || (a.major == b.major && (a.minor < b.minor || (a.minor == b.minor && a.patch < b.patch)))
  }

  // ---------------------------------------------------------------- the version edits

  function FirstVersion(s: seq<VersionText>, v: VersionText): (k: nat)
    ensures k <= |s| && (k < |s| ==> s[k] == v)
    ensures forall i :: 0 <= i < k ==> s[i] != v
  {
    if s == [] || s[0] == v then 0 else 1 + FirstVersion(s[1..], v)
  }

  // The first plain line holding the old version, searching from the package table on.
  function EditManifest(m: Manifest, v: Version, next: Version): Option<Manifest> {
    if m.plain && m.version == Stable(v) then Some(m.(version := Stable(next)))
    else
      var k := FirstVersion(m.laterVersions, Stable(v));
      if k < |m.laterVersions| then Some(m.(laterVersions := m.laterVersions[k := Stable(next)])) else None
  }

  function FirstNamed(lock: seq<LockEntry>, name: string): (k: nat)
    ensures k <= |lock| && (k < |lock| ==> lock[k].name == name)
    ensures forall i :: 0 <= i < k ==> lock[i].name != name
  {
    if lock == [] || lock[0].name == name then 0 else 1 + FirstNamed(lock[1..], name)
  }

  function FirstAtVersion(lock: seq<LockEntry>, start: nat, v: VersionText): (k: nat)
    requires start <= |lock|
    ensures start <= k <= |lock| && (k < |lock| ==> lock[k].version == v)
    ensures forall i :: start <= i < k ==> lock[i].version != v
    decreases |lock| - start
  {
    if start == |lock| || lock[start].version == v then start else FirstAtVersion(lock, start + 1, v)
  }

  // The entry whose version line the edit rewrites.
  function EditedEntry(lock: seq<LockEntry>, name: string, v: Version): nat {
    FirstAtVersion(lock, FirstNamed(lock, name), Stable(v))
  }

  function EditLock(lock: seq<LockEntry>, name: string, v: Version, next: Version): Option<seq<LockEntry>> {
    var k := EditedEntry(lock, name, v);
    if k < |lock| then Some(lock[k := lock[k].(version := Stable(next))]) else None
  }

  predicate IsOwn(e: LockEntry, name: string) {
    e.name == name && !e.hasSource
  }

  function OwnTest(name: string): LockEntry -> bool {
    e => IsOwn(e, name)
  }

  function OwnEntries(lock: seq<LockEntry>, name: string): seq<LockEntry> {
    Filter(lock, OwnTest(name))
  }

  // ---------------------------------------------------------------- deciding what to do

  datatype Reason =
    | WrongProfile | Dirty | Shallow | Detached | UnstableVersion | LockMismatch | NextExists | NoVersionLine

  datatype Effect =
    | WriteManifest(manifest: Manifest)
    | WriteLock(lock: seq<LockEntry>)
    | AddBoth
    | MakeCommit(subject: Subject)

  datatype Decision = Refuse(reason: Reason) | Go(effects: seq<Effect>, version: Version, tagMissing: bool)

  // The manifest version is tagged, but at another commit than HEAD.
  predicate NeedsBump(r: Repo)
    requires r.head < |r.commits|
  {
    var text := r.worktree.manifest.version;
    text.Stable? && text.version in r.tags && r.tags[text.version] != r.head
  }

  function BumpEffects(m: Manifest, lock: seq<LockEntry>, next: Version): seq<Effect> {
    [WriteManifest(m), WriteLock(lock), AddBoth, MakeCommit(PrepareRelease(next))]
  }

  function DecideBump(r: Repo, v: Version): Decision {
    var m, lock, next := r.worktree.manifest, r.worktree.lock, NextVersion(v);
    if next in r.tags then Refuse(NextExists)
    else
      var newManifest, newLock := EditManifest(m, v, next), EditLock(lock, m.name, v, next);
      if newManifest.None? || newLock.None? then Refuse(NoVersionLine)
      else Go(BumpEffects(newManifest.value, newLock.value, next), next, true)
  }

  // The checks made before anything is written.
  function Preflight(r: Repo, releaseProfile: bool): Option<Reason>
    requires r.head < |r.commits|
  {
    var m := r.worktree.manifest;
    var own := OwnEntries(r.worktree.lock, m.name);
    if !releaseProfile then Some(WrongProfile)
    else if !Clean(r) then Some(Dirty)
    else if r.shallow then Some(Shallow)
    else if !r.onBranch then Some(Detached)
    else if m.version.Other? then Some(UnstableVersion)
    else if |own| != 1 || own[0].version != m.version then Some(LockMismatch)
    else None
  }

  function Decide(r: Repo, releaseProfile: bool): Decision
    requires r.head < |r.commits|
  {
    var refusal := Preflight(r, releaseProfile);
    if refusal.Some? then Refuse(refusal.value)
    else
      var v := r.worktree.manifest.version.version;
      if NeedsBump(r) then DecideBump(r, v)
      else if v in r.tags then Go([], v, false)
      else if r.commits[r.head].subject == PrepareRelease(v) then Go([], v, true)
      else Go([MakeCommit(PrepareRelease(v))], v, true)
  }

  // ---------------------------------------------------------------- doing it

  function Apply(r: Repo, e: Effect): Repo {
    match e
    case WriteManifest(m) => r.(worktree := r.worktree.(manifest := m))
    case WriteLock(l) => r.(worktree := r.worktree.(lock := l))
    case AddBoth => r.(index := r.index.(manifest := r.worktree.manifest, lock := r.worktree.lock))
    case MakeCommit(subject) =>
      r.(commits := r.commits + [Commit(r.index, subject, Some(r.head))], head := |r.commits|)
  }

  function ApplyAll(r: Repo, es: seq<Effect>): Repo
    decreases |es|
  {
    if es == [] then r else ApplyAll(Apply(r, es[0]), es[1..])
  }

  // Whatever happens outside the script: new commits and tags, another HEAD, edited files. History is
  // only added to and existing tags stay.
  datatype Disturbance = Disturbance(
    commits: seq<Commit>,
    head: Option<nat>,
    tags: map<Version, nat>,
    worktree: Tree,
    index: Tree,
    untracked: bool)

  function TagsWithin(tags: map<Version, nat>, n: nat): map<Version, nat> {
    map v | v in tags && tags[v] < n :: tags[v]
  }

  function Disturb(r: Repo, d: Option<Disturbance>): Repo {
    if d.None? then r
    else
      var commits := r.commits + d.value.commits;
      r.(commits := commits,
         head := if d.value.head.Some? && d.value.head.value < |commits| then d.value.head.value else r.head,
         tags := TagsWithin(d.value.tags, |commits|) + r.tags,
         worktree := d.value.worktree, index := d.value.index, untracked := d.value.untracked)
  }

  // stopAfter is the number of effects after which the script dies, if it gets that far.
  datatype Env = Env(releaseProfile: bool, stopAfter: nat, buildOk: bool, duringBuild: Option<Disturbance>)

  datatype Outcome = Refused(reason: Reason) | Crashed | BuildFailed | CheckoutChanged | TagFailed | Done(version: Version)

  function Release(r: Repo, env: Env): (Repo, Outcome)
    requires r.head < |r.commits|
  {
    var decision := Decide(r, env.releaseProfile);
    if decision.Refuse? then (r, Refused(decision.reason))
    else
      var es := decision.effects;
      if env.stopAfter < |es| then (ApplyAll(r, es[..env.stopAfter]), Crashed)
      else AfterBuild(ApplyAll(r, es), decision.version, decision.tagMissing, env, env.stopAfter == |es|)
  }

  function AfterBuild(r: Repo, v: Version, tagMissing: bool, env: Env, diesBeforeTag: bool): (Repo, Outcome) {
    var built := Disturb(r, env.duringBuild);
    if !env.buildOk then (built, BuildFailed)
    else if built.head != r.head || built.head >= |built.commits| || !Clean(built) then (built, CheckoutChanged)
    else if !tagMissing then (built, Done(v))
    else if diesBeforeTag then (built, Crashed)
    else if v in built.tags then (built, TagFailed)
    else (built.(tags := built.tags[v := built.head]), Done(v))
  }

  // ---------------------------------------------------------------- the stateful form

  class Checkout {
    var commits: seq<Commit>
    var head: nat
    var onBranch: bool
    var shallow: bool
    var tags: map<Version, nat>
    var worktree: Tree
    var index: Tree
    var untracked: bool

    ghost function Abs(): Repo
      reads this
    {
      Repo(commits, head, onBranch, shallow, tags, worktree, index, untracked)
    }

    constructor (r: Repo)
      ensures Abs() == r
    {
      commits, head, onBranch, shallow := r.commits, r.head, r.onBranch, r.shallow;
      tags, worktree, index, untracked := r.tags, r.worktree, r.index, r.untracked;
    }

    method GitCommit(subject: Subject)
      modifies this`commits, this`head
      ensures Abs() == Apply(old(Abs()), MakeCommit(subject))
    {
      var parent := head;
      head := |commits|;
      commits := commits + [Commit(index, subject, Some(parent))];
    }

    method GitAdd()
      modifies this`index
      ensures Abs() == Apply(old(Abs()), AddBoth)
    {
      index := index.(manifest := worktree.manifest, lock := worktree.lock);
    }

    method Build(env: Env)
      modifies this
      ensures Abs() == Disturb(old(Abs()), env.duringBuild)
    {
      if env.duringBuild.Some? {
        var d := env.duringBuild.value;
        commits := commits + d.commits;
        if d.head.Some? && d.head.value < |commits| {
          head := d.head.value;
        }
        tags := TagsWithin(d.tags, |commits|) + tags;
        worktree, index, untracked := d.worktree, d.index, d.untracked;
      }
    }

    method StatusIsEmpty() returns (empty: bool)
      requires head < |commits|
      ensures empty == Clean(Abs())
    {
      empty := worktree == index && index == commits[head].tree && !untracked;
    }

    // The two rewritten files; nothing is written unless both version lines were found.
    method NewTexts(v: Version, next: Version) returns (texts: Option<(Manifest, seq<LockEntry>)>)
      ensures var m := EditManifest(worktree.manifest, v, next);
              var l := EditLock(worktree.lock, worktree.manifest.name, v, next);
              texts == if m.Some? && l.Some? then Some((m.value, l.value)) else None
    {
      var m := EditManifest(worktree.manifest, v, next);
      if m.None? {
        return None;
      }
      var l := EditLock(worktree.lock, worktree.manifest.name, v, next);
      if l.None? {
        return None;
      }
      texts := Some((m.value, l.value));
    }

    method CheckFirst(releaseProfile: bool) returns (refusal: Option<Reason>)
      requires head < |commits|
      ensures refusal == Preflight(Abs(), releaseProfile)
    {
      if !releaseProfile {
        return Some(WrongProfile);
      }
      var empty := StatusIsEmpty();
      if !empty {
        return Some(Dirty);
      }
      if shallow {
        return Some(Shallow);
      }
      if !onBranch {
        return Some(Detached);
      }
      var m := worktree.manifest;
      if m.version.Other? {
        return Some(UnstableVersion);
      }
      var own := OwnEntries(worktree.lock, m.name);
      if |own| != 1 || own[0].version != m.version {
        return Some(LockMismatch);
      }
      refusal := None;
    }

    method BumpCommit(newManifest: Manifest, newLock: seq<LockEntry>, next: Version, stopAfter: nat)
      returns (crashed: bool)
      modifies this
      ensures crashed == (stopAfter < 4)
      ensures var es := BumpEffects(newManifest, newLock, next);
              Abs() == ApplyAll(old(Abs()), if crashed then es[..stopAfter] else es)
    {
      FourEffects(Abs(), BumpEffects(newManifest, newLock, next));
      crashed := true;
      if stopAfter == 0 {
        return;
      }
      worktree := worktree.(manifest := newManifest);
      if stopAfter == 1 {
        return;
      }
      worktree := worktree.(lock := newLock);
      if stopAfter == 2 {
        return;
      }
      GitAdd();
      if stopAfter == 3 {
        return;
      }
      GitCommit(PrepareRelease(next));
      crashed := false;
    }

    method BuildAndTag(version: Version, tagMissing: bool, env: Env, diesBeforeTag: bool) returns (outcome: Outcome)
      modifies this
      ensures (Abs(), outcome) == AfterBuild(old(Abs()), version, tagMissing, env, diesBeforeTag)
    {
      var releaseHead := head;
      Build(env);
      if !env.buildOk {
        return BuildFailed;
      }
      if head != releaseHead || head >= |commits| {
        return CheckoutChanged;
      }
      var empty := StatusIsEmpty();
      if !empty {
        return CheckoutChanged;
      }
      if tagMissing {
        if diesBeforeTag {
          return Crashed;
        }
        if version in tags {
          return TagFailed;
        }
        tags := tags[version := releaseHead];
      }
      outcome := Done(version);
    }

    method ReleaseRun(env: Env) returns (outcome: Outcome)
      requires head < |commits|
      modifies this
      ensures (Abs(), outcome) == Release(old(Abs()), env)
    {
      var refusal := CheckFirst(env.releaseProfile);
      if refusal.Some? {
        return Refused(refusal.value);
      }
      var version := worktree.manifest.version.version;
      var taggedBefore := tags;
      var taken := 0;
      if version in tags && tags[version] != head {
        var next := NextVersion(version);
        if next in tags {
          return Refused(NextExists);
        }
        var texts := NewTexts(version, next);
        if texts.None? {
          return Refused(NoVersionLine);
        }
        var crashed := BumpCommit(texts.value.0, texts.value.1, next, env.stopAfter);
        if crashed {
          return Crashed;
        }
        version, taken := next, 4;
      } else if version !in tags && commits[head].subject != PrepareRelease(version) {
        NoneOrOne(Abs(), MakeCommit(PrepareRelease(version)));
        if env.stopAfter == 0 {
          return Crashed;
        }
        GitCommit(PrepareRelease(version));
        taken := 1;
      }
      outcome := BuildAndTag(version, version !in taggedBefore, env, env.stopAfter == taken);
    }
  }

  lemma NoneOrOne(r: Repo, e: Effect)
    ensures ApplyAll(r, [e][..0]) == r && ApplyAll(r, [e]) == Apply(r, e)
  {
  }

  lemma FourEffects(r: Repo, es: seq<Effect>)
    requires |es| == 4
    ensures ApplyAll(r, es[..0]) == r
    ensures ApplyAll(r, es[..1]) == Apply(r, es[0])
    ensures ApplyAll(r, es[..2]) == Apply(Apply(r, es[0]), es[1])
    ensures ApplyAll(r, es[..3]) == Apply(Apply(Apply(r, es[0]), es[1]), es[2])
    ensures ApplyAll(r, es) == Apply(Apply(Apply(Apply(r, es[0]), es[1]), es[2]), es[3])
  {
    var r1 := Apply(r, es[0]);
    var r2 := Apply(r1, es[1]);
    var r3 := Apply(r2, es[2]);
    assert es[..1][1..] == [] && es[..2][1..] == [es[1]] && es[..3][1..] == [es[1], es[2]];
    assert es[1..][1..] == [es[2], es[3]] && [es[1], es[2]][1..] == [es[2]];
    assert ApplyAll(r2, [es[2]]) == r3;
    assert ApplyAll(r2, [es[2], es[3]]) == ApplyAll(r3, [es[3]]) by {
      assert [es[2], es[3]][1..] == [es[3]];
    }
    assert ApplyAll(r1, [es[1]]) == r2;
    assert ApplyAll(r1, [es[1], es[2]]) == ApplyAll(r2, [es[2]]);
    assert ApplyAll(r3, [es[3]]) == Apply(r3, es[3]);
  }
}
