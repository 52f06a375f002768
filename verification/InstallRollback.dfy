// From every starting state and every point of failure, a restore puts back exactly what was backed
// up, except for what the backup itself could not hold.
module InstallRollback {
  import opened Wrappers
  import opened Install

  predicate Service(service: string, n: nat)
    requires n <= |SERVICES|
  {
    exists i :: 0 <= i < n && SERVICES[i] == service
  }

  predicate Named(name: string, n: nat)
    requires n <= |NAMES|
  {
    exists i :: 0 <= i < n && NAMES[i] == name
  }

  /** What a map says of a key. */
  function Get<V>(m: map<string, V>, key: string): Option<V> {
    if key in m then Some(m[key]) else None
  }

  lemma {:induction false} KeptPlist(home: Home, launchd: map<string, Plist>, n: nat, service: string)
    requires n <= |SERVICES|
    ensures Get(KeepPlists(home, launchd, n), service)
            == if Service(service, n) && service in home.plists then Some(home.plists[service]) else Get(launchd, service)
  {
    if n > 0 { KeptPlist(home, launchd, n - 1, service); }
  }

  lemma {:induction false} RestoredPlist(plists: map<string, Plist>, job: Job, n: nat, service: string)
    requires n <= |SERVICES|
    ensures Get(RestorePlists(plists, job, n), service)
            == if Service(service, n) && service in job.launchd then Some(job.launchd[service]) else Get(plists, service)
  {
    if n > 0 { RestoredPlist(plists, job, n - 1, service); }
  }

  lemma {:induction false} KeptEntry(home: Home, n: nat, name: string)
    requires n <= |NAMES|
    ensures Get(KeepEntries(home, n), name) == if Named(name, n) then Some(PriorOf(home, name)) else None
  {
    if n > 0 { KeptEntry(home, n - 1, name); }
  }

  lemma {:induction false} KeptFile(home: Home, files: map<string, string>, n: nat, name: string)
    requires n <= |NAMES|
    ensures Get(KeepFiles(home, files, n), name)
            == if Named(name, n) && name in home.bins && home.bins[name].File? then Some(home.bins[name].bytes)
               else Get(files, name)
  {
    if n > 0 { KeptFile(home, files, n - 1, name); }
  }

  lemma BackupIsSaved(home: Home, job: Job)
    ensures Saved(BackedUp(home, job))
  {
    var saved := BackedUp(home, job);
    forall i | 0 <= i < |NAMES|
      ensures NAMES[i] in saved.entries && (saved.entries[NAMES[i]].WasFile? ==> NAMES[i] in saved.files)
    {
      assert Named(NAMES[i], |NAMES|);
      KeptEntry(home, |NAMES|, NAMES[i]);
      KeptFile(home, job.files, |NAMES|, NAMES[i]);
    }
  }

  /** What one command is after a restore. */
  function BinAfter(bins: map<string, Bin>, job: Job, name: string): Option<Bin>
    requires name in job.entries && (job.entries[name].WasFile? ==> name in job.files)
  {
    match job.entries[name]
    case WasAbsent => None
    case WasLink(target) => Some(Link(target))
    case WasFile(mode) => Some(File(job.files[name], mode))
  }

  lemma {:induction false} RestoredBin(bins: map<string, Bin>, job: Job, n: nat, name: string)
    requires n <= |NAMES| && Saved(job)
    ensures Named(name, n) ==> name in job.entries && (job.entries[name].WasFile? ==> name in job.files)
    ensures Get(RestoreBins(bins, job, n), name) == if Named(name, n) then BinAfter(bins, job, name) else Get(bins, name)
  {
    if n > 0 { RestoredBin(bins, job, n - 1, name); }
  }

  /** An installation touches only the app, the three commands and the plists that are there. */
  ghost predicate OnlyOurs(before: Home, after: Home) {
    && (forall name :: !Named(name, |NAMES|) ==> Get(after.bins, name) == Get(before.bins, name))
    && (forall service :: !Service(service, |SERVICES|) ==> Get(after.plists, service) == Get(before.plists, service))
    && after.plists.Keys == before.plists.Keys
  }

  lemma {:induction false} InstallTouchesOurs(home: Home, package: Package, k: nat)
    requires k <= STEPS
    ensures OnlyOurs(home, InstallUpTo(home, package, k))
  {
    if k > 0 {
      InstallTouchesOurs(home, package, k - 1);
      var before := InstallUpTo(home, package, k - 1);
      if 1 < k <= 4 {
        assert Named(NAMES[k - 2], |NAMES|);
      } else if k > 4 {
        assert Service(SERVICES[k - 5], |SERVICES|);
      }
    }
  }

  // ----- what an installation leaves -----

  /** What launchd runs for this plist. */
  function Runs(plist: Plist): Option<string> {
    if plist.arguments.Some? && |plist.arguments.value| > 0 then Some(plist.arguments.value[0]) else plist.program
  }

  /** The same plist but for what it runs. */
  ghost predicate SameButRun(a: Plist, b: Plist) {
    && a.rest == b.rest && a.arguments.Some? == b.arguments.Some?
    && (a.arguments.Some? ==> |a.arguments.value| == |b.arguments.value|
                              && (a.arguments.value != [] ==> a.arguments.value[1..] == b.arguments.value[1..]))
    && (a.arguments.Some? && a.arguments.value != [] ==> a.program == b.program)
  }

  lemma PointedRuns(plist: Plist, executable: string)
    ensures Pointed(plist, executable).None? <==> Runs(plist).None?
    ensures Pointed(plist, executable).Some? ==>
              Runs(Pointed(plist, executable).value) == Some(executable) && SameButRun(Pointed(plist, executable).value, plist)
  {
  }

  lemma {:induction false} InstallsCommands(home: Home, package: Package, k: nat)
    requires k <= STEPS
    ensures var now := InstallUpTo(home, package, k);
            && now.app == (if k >= 1 then Some(package.app) else home.app)
            && (k >= 2 ==> Get(now.bins, "st3") == Some(Link(package.place + "/Contents/MacOS/" + "st3")))
            && (k >= 3 ==> Get(now.bins, "stui") == Some(Link(package.place + "/Contents/MacOS/" + "stui")))
            && (k >= 4 ==> Get(now.bins, "st") == Some(Link("st3")))
  {
    if k > 0 { InstallsCommands(home, package, k - 1); }
  }

  /** The plists of services already passed are pointed at the app, and the others are as they were. */
  lemma {:induction false} InstallsPlists(home: Home, package: Package, k: nat, service: string)
    requires k <= STEPS && (forall i :: 4 <= i < k ==> InstallStep(InstallUpTo(home, package, i), package, i).Some?)
    ensures Get(InstallUpTo(home, package, k).plists, service)
            == if k > 4 && Service(service, k - 4) && service in home.plists
               then Pointed(home.plists[service], package.place + "/Contents/MacOS/" + "st3")
               else Get(home.plists, service)
  {
    if k > 0 {
      InstallsPlists(home, package, k - 1, service);
      if k > 4 {
        assert InstallStep(InstallUpTo(home, package, k - 1), package, k - 1).Some?;
        InstallsPlists(home, package, k - 1, SERVICES[k - 5]);
        assert Service(service, k - 4) <==> (k > 5 && Service(service, k - 5)) || service == SERVICES[k - 5];
        assert k > 5 ==> SERVICES[0] != SERVICES[1];
      }
    }
  }

  /**
   A whole installation: the app, `st3` and `stui` linked into it and `st` to `st3`, and every plist of a
   service running the app's `st3` with all else in it as it was; other commands and plists untouched.
   */
  lemma InstalledExactly(home: Home, package: Package)
    requires forall i :: 4 <= i < STEPS ==> InstallStep(InstallUpTo(home, package, i), package, i).Some?
    ensures var now := InstallUpTo(home, package, STEPS);
            && now.app == Some(package.app)
            && Get(now.bins, "st3") == Some(Link(package.place + "/Contents/MacOS/" + "st3"))
            && Get(now.bins, "stui") == Some(Link(package.place + "/Contents/MacOS/" + "stui"))
            && Get(now.bins, "st") == Some(Link("st3"))
            && (forall name | name !in ["st3", "stui", "st"] :: Get(now.bins, name) == Get(home.bins, name))
            && now.plists.Keys == home.plists.Keys
            && forall service | service in home.plists ::
                 if service in ["com.compoundingtech.st3", "com.compoundingtech.st3.replication"] then
                   Runs(now.plists[service]) == Some(package.place + "/Contents/MacOS/" + "st3")
                   && SameButRun(now.plists[service], home.plists[service])
                 else now.plists[service] == home.plists[service]
  {
    hide Pointed, InstallStep, Runs, SameButRun;
    var now := InstallUpTo(home, package, STEPS);
    InstallsCommands(home, package, STEPS);
    InstallTouchesOurs(home, package, STEPS);
    forall name | name !in ["st3", "stui", "st"] ensures Get(now.bins, name) == Get(home.bins, name) {
      assert !Named(name, |NAMES|);
    }
    forall service | service in home.plists
      ensures if service in ["com.compoundingtech.st3", "com.compoundingtech.st3.replication"] then
                Runs(now.plists[service]) == Some(package.place + "/Contents/MacOS/" + "st3")
                && SameButRun(now.plists[service], home.plists[service])
              else now.plists[service] == home.plists[service]
    {
      InstallsPlists(home, package, STEPS, service);
      PointedRuns(home.plists[service], package.place + "/Contents/MacOS/" + "st3");
      assert Service(service, |SERVICES|) <==> service == SERVICES[0] || service == SERVICES[1];
    }
  }

  /** An installation goes through exactly when every service's plist that is there runs something. */
  lemma InstallsIff(home: Home, package: Package, k: nat)
    requires k < STEPS && (forall i :: 4 <= i < k ==> InstallStep(InstallUpTo(home, package, i), package, i).Some?)
    ensures InstallStep(InstallUpTo(home, package, k), package, k).None?
            <==> k >= 4 && SERVICES[k - 4] in home.plists && Runs(home.plists[SERVICES[k - 4]]).None?
  {
    if k >= 4 {
      var service := SERVICES[k - 4];
      InstallsPlists(home, package, k, service);
      assert k == 5 ==> SERVICES[0] != SERVICES[1];
      assert !(k > 4 && Service(service, k - 4));
      if service in home.plists { PointedRuns(home.plists[service], Executable(package, "st3")); }
    }
  }

  // ----- what a backup cannot hold -----

  /** No leftover file in the job's copy of the app. */
  predicate NoStrayFile(home: Home, job: Job) {
    home.app.Some? && job.previousApp.Some? ==> job.previousApp.value.Keys <= home.app.value.Keys
  }

  /** No leftover plist in the job for a service the machine does not have. */
  predicate NoStrayPlist(home: Home, job: Job) {
    forall i :: 0 <= i < |SERVICES| && SERVICES[i] in job.launchd ==> SERVICES[i] in home.plists
  }

  /** No command with a mode beyond rwxrwxrwx. */
  predicate PlainModes(home: Home) {
    forall i :: 0 <= i < |NAMES| && NAMES[i] in home.bins && home.bins[NAMES[i]].File? ==>
                  home.bins[NAMES[i]].mode < 0x200
  }

  lemma AppComesBack(home: Home, job: Job)
    ensures RestoredApp(BackedUp(home, job), home.app.Some?) == home.app <==> NoStrayFile(home, job)
  {
    if home.app.Some? && job.previousApp.Some? {
      var under, over := job.previousApp.value, home.app.value;
      if under.Keys <= over.Keys {
        assert under + over == over;
      } else {
        var file :| file in under && file !in over;
        assert file in under + over;
      }
    }
  }

  lemma PlistComesBack(home: Home, job: Job, now: Home, service: string)
    requires OnlyOurs(home, now)
    ensures Get(RestorePlists(now.plists, BackedUp(home, job), |SERVICES|), service) == Get(home.plists, service)
            <==> !(Service(service, |SERVICES|) && service in job.launchd && service !in home.plists)
  {
    RestoredPlist(now.plists, BackedUp(home, job), |SERVICES|, service);
    KeptPlist(home, job.launchd, |SERVICES|, service);
    assert service in now.plists <==> service in home.plists;
  }

  lemma SameMap<V>(a: map<string, V>, b: map<string, V>)
    ensures a == b <==> forall key :: Get(a, key) == Get(b, key)
  {
    if forall key :: Get(a, key) == Get(b, key) {
      assert forall key :: key in a <==> Get(a, key).Some?;
      assert forall key :: key in b <==> Get(b, key).Some?;
      assert a.Keys == b.Keys;
      forall key | key in a ensures a[key] == b[key] { assert Get(a, key) == Get(b, key); }
      assert a == b;
    }
  }

  lemma PlistsComeBack(home: Home, job: Job, now: Home)
    requires OnlyOurs(home, now)
    ensures RestorePlists(now.plists, BackedUp(home, job), |SERVICES|) == home.plists <==> NoStrayPlist(home, job)
  {
    var restored := RestorePlists(now.plists, BackedUp(home, job), |SERVICES|);
    SameMap(restored, home.plists);
    if NoStrayPlist(home, job) {
      forall service ensures Get(restored, service) == Get(home.plists, service) {
        PlistComesBack(home, job, now, service);
      }
    } else {
      var i :| 0 <= i < |SERVICES| && SERVICES[i] in job.launchd && SERVICES[i] !in home.plists;
      PlistComesBack(home, job, now, SERVICES[i]);
      assert Service(SERVICES[i], |SERVICES|);
    }
  }

  lemma BinComesBack(home: Home, job: Job, now: Home, name: string)
    requires OnlyOurs(home, now) && Replaceable(home) && Saved(BackedUp(home, job))
    ensures Get(RestoreBins(now.bins, BackedUp(home, job), |NAMES|), name) == Get(home.bins, name)
            <==> !(Named(name, |NAMES|) && name in home.bins && home.bins[name].File? && home.bins[name].mode >= 0x200)
  {
    var saved := BackedUp(home, job);
    RestoredBin(now.bins, saved, |NAMES|, name);
    KeptEntry(home, |NAMES|, name);
    KeptFile(home, job.files, |NAMES|, name);
  }

  lemma BinsComeBack(home: Home, job: Job, now: Home)
    requires OnlyOurs(home, now) && Replaceable(home) && Saved(BackedUp(home, job))
    ensures RestoreBins(now.bins, BackedUp(home, job), |NAMES|) == home.bins <==> PlainModes(home)
  {
    var restored := RestoreBins(now.bins, BackedUp(home, job), |NAMES|);
    SameMap(restored, home.bins);
    if PlainModes(home) {
      forall name ensures Get(restored, name) == Get(home.bins, name) { BinComesBack(home, job, now, name); }
    } else {
      var i :| 0 <= i < |NAMES| && NAMES[i] in home.bins && home.bins[NAMES[i]].File? && home.bins[NAMES[i]].mode >= 0x200;
      BinComesBack(home, job, now, NAMES[i]);
      assert Named(NAMES[i], |NAMES|);
    }
  }

  /**
   For every starting state, job and point of failure: after a backup that went through, a restore
   returns the app, the plists and the commands exactly, if and only if the job held no stray app
   file or plist and no command's mode goes beyond the nine permission bits.
   */
  lemma RestoreUndoesInstall(home: Home, job: Job, package: Package, k: nat)
    requires Replaceable(home) && k <= STEPS
    ensures Saved(BackedUp(home, job))
    ensures Restored(InstallUpTo(home, package, k), BackedUp(home, job), home.app.Some?) == home
            <==> NoStrayFile(home, job) && NoStrayPlist(home, job) && PlainModes(home)
  {
    BackupIsSaved(home, job);
    InstallTouchesOurs(home, package, k);
    var now := InstallUpTo(home, package, k);
    AppComesBack(home, job);
    PlistsComeBack(home, job, now);
    BinsComeBack(home, job, now);
  }

  /** An installation with a job directory of its own has no strays. */
  lemma FreshJobRestores(home: Home, package: Package, k: nat)
    requires Replaceable(home) && k <= STEPS
    ensures var job := BackedUp(home, Job(None, map[], map[], map[]));
            Saved(job)
            && (Restored(InstallUpTo(home, package, k), job, home.app.Some?) == home <==> PlainModes(home))
  {
    RestoreUndoesInstall(home, Job(None, map[], map[], map[]), package, k);
  }

  /** A restore interrupted anywhere and run again ends where it would have. */
  lemma RestoreAgain(home: Home, job: Job, hadApp: bool, a: bool, p: nat, b: nat)
    requires p <= |SERVICES| && b <= |NAMES| && Saved(job)
    ensures Restored(RestoreUpTo(home, job, hadApp, a, p, b), job, hadApp) == Restored(home, job, hadApp)
  {
    var half := RestoreUpTo(home, job, hadApp, a, p, b);
    forall service
      ensures Get(RestorePlists(half.plists, job, |SERVICES|), service)
              == Get(RestorePlists(home.plists, job, |SERVICES|), service)
    {
      RestoredPlist(half.plists, job, |SERVICES|, service);
      RestoredPlist(home.plists, job, |SERVICES|, service);
      RestoredPlist(home.plists, job, p, service);
    }
    SameMap(RestorePlists(half.plists, job, |SERVICES|), RestorePlists(home.plists, job, |SERVICES|));
    forall name
      ensures Get(RestoreBins(half.bins, job, |NAMES|), name) == Get(RestoreBins(home.bins, job, |NAMES|), name)
    {
      RestoredBin(half.bins, job, |NAMES|, name);
      RestoredBin(home.bins, job, |NAMES|, name);
      RestoredBin(home.bins, job, b, name);
    }
    SameMap(RestoreBins(half.bins, job, |NAMES|), RestoreBins(home.bins, job, |NAMES|));
  }

  /** A command with its set-user-ID bit does not come back with it. */
  lemma SetUserIdIsLost()
    ensures var home := Home(None, map[], map["st3" := File("", 0x9ED)]);
            var saved := BackedUp(home, Job(None, map[], map[], map[]));
            Saved(saved) && Restored(home, saved, false) != home
  {
    var home := Home(None, map[], map["st3" := File("", 0x9ED)]);
    var saved := BackedUp(home, Job(None, map[], map[], map[]));
    BackupIsSaved(home, Job(None, map[], map[], map[]));
    assert NAMES[0] == "st3" && Named("st3", |NAMES|);
    RestoredBin(home.bins, saved, |NAMES|, "st3");
    KeptEntry(home, |NAMES|, "st3");
    assert Get(home.bins, "st3") == Some(File("", 0x9ED));
  }

  /** The whole transaction: back up, install, and on any failure restore. `lastFails`: registering the app fails. */
  method Transact(m: Machine, package: Package, k: nat, lastFails: bool) returns (installed: bool)
    requires k <= STEPS
    modifies m
    ensures installed ==> m.home == InstallUpTo(old(m.home), package, STEPS)
    ensures !installed ==>
              (m.home == old(m.home)
               <==> !Replaceable(old(m.home))
                    || (NoStrayFile(old(m.home), old(m.job)) && NoStrayPlist(old(m.home), old(m.job))
                        && PlainModes(old(m.home))))
  {
    ghost var home, job := m.home, m.job;
    var hadApp := m.home.app.Some?;
    var backedUp := m.Backup();
    if !backedUp { return false; }
    var done := m.Install(package, k);
    if done == STEPS && !lastFails { return true; }
    RestoreUndoesInstall(home, job, package, done);
    m.Restore(hadApp);
    return false;
  }
}
