// scripts/install-macos.py, `backup`, `swap`, `install`, `restore` and the try/except of `main`:
// installing an app over another, and putting everything back when that fails.
module Install {
  import opened Wrappers

  /** An app bundle: its files and what is in them. */
  type App = map<string, string>

  /** A command in the bin directory. */
  datatype Bin = Link(target: string) | File(bytes: string, mode: nat) | Other

  /** What launchd runs for a service: the first argument if there are any, else the program; `rest` is all else. */
  datatype Plist = Plist(arguments: Option<seq<string>>, program: Option<string>, rest: string)

  /** What an installation changes: the app, the service plists, and the commands. */
  datatype Home = Home(app: Option<App>, plists: map<string, Plist>, bins: map<string, Bin>)

  datatype Prior = WasLink(target: string) | WasFile(mode: nat) | WasAbsent

  /** The transaction's own directory; a used one may hold leftovers. */
  datatype Job = Job(previousApp: Option<App>, launchd: map<string, Plist>, files: map<string, string>,
                     entries: map<string, Prior>)

  const SERVICES: seq<string> := ["com.compoundingtech.st3", "com.compoundingtech.st3.replication"]
  const NAMES: seq<string> := ["st3", "stui", "st"]

  // ----- backing up -----

  /** Copying one bundle over another keeps files that are only in the other. */
  function Overlay(under: Option<App>, over: App): App {
    if under.Some? then under.value + over else over
  }

  function KeepPlists(home: Home, launchd: map<string, Plist>, n: nat): map<string, Plist>
    requires n <= |SERVICES|
  {
    if n == 0 then launchd
    else
      var kept, service := KeepPlists(home, launchd, n - 1), SERVICES[n - 1];
      if service in home.plists then kept[service := home.plists[service]] else kept
  }

  function PriorOf(home: Home, name: string): Prior {
    if name !in home.bins then WasAbsent
    else
      match home.bins[name]
      case Link(target) => WasLink(target)
      case File(_, mode) => WasFile(mode % 0x200)
      case Other => WasAbsent
  }

  function KeepFiles(home: Home, files: map<string, string>, n: nat): map<string, string>
    requires n <= |NAMES|
  {
    if n == 0 then files
    else
      var kept, name := KeepFiles(home, files, n - 1), NAMES[n - 1];
      if name in home.bins && home.bins[name].File? then kept[name := home.bins[name].bytes] else kept
  }

  function KeepEntries(home: Home, n: nat): map<string, Prior>
    requires n <= |NAMES|
  {
    if n == 0 then map[] else KeepEntries(home, n - 1)[NAMES[n - 1] := PriorOf(home, NAMES[n - 1])]
  }

  predicate Replaceable(home: Home) {
    forall i :: 0 <= i < |NAMES| && NAMES[i] in home.bins ==> !home.bins[NAMES[i]].Other?
  }

  function BackedUp(home: Home, job: Job): Job {
    Job(if home.app.Some? then Some(Overlay(job.previousApp, home.app.value)) else job.previousApp,
        KeepPlists(home, job.launchd, |SERVICES|), KeepFiles(home, job.files, |NAMES|), KeepEntries(home, |NAMES|))
  }

  // ----- installing -----

  /** What is installed: the new app, and the place it is put. */
  datatype Package = Package(app: App, place: string)

  function Executable(package: Package, name: string): string {
    package.place + "/Contents/MacOS/" + name
  }

  /** Where a command points: into the app, but `st` at the command next to it. */
  function LinkTo(package: Package, name: string): string {
    if name == "st" then "st3" else Executable(package, name)
  }

  /** A plist made to run another executable; one that names none cannot be. */
  function Pointed(plist: Plist, executable: string): Option<Plist> {
    if plist.arguments.Some? && plist.arguments.value != [] then
      Some(plist.(arguments := Some(plist.arguments.value[0 := executable])))
    else if plist.program.Some? then Some(plist.(program := Some(executable)))
    else None
  }

  const STEPS: nat := 6

  /** The `k`th change an installation makes to what others see; each is atomic. */
  function InstallStep(home: Home, package: Package, k: nat): Option<Home>
    requires k < STEPS
  {
    if k == 0 then Some(home.(app := Some(package.app)))
    else if k <= 3 then Some(home.(bins := home.bins[NAMES[k - 1] := Link(LinkTo(package, NAMES[k - 1]))]))
    else
      var service := SERVICES[k - 4];
      if service !in home.plists then Some(home)
      else
        var pointed := Pointed(home.plists[service], Executable(package, "st3"));
        if pointed.None? then None else Some(home.(plists := home.plists[service := pointed.value]))
  }

  /** The home after the first `k` changes. */
  function InstallUpTo(home: Home, package: Package, k: nat): Home
    requires k <= STEPS
  {
    if k == 0 then home
    else
      var before := InstallUpTo(home, package, k - 1);
      InstallStep(before, package, k - 1).GetOr(before)
  }

  // ----- restoring -----

  function RestorePlists(plists: map<string, Plist>, job: Job, n: nat): map<string, Plist>
    requires n <= |SERVICES|
  {
    if n == 0 then plists
    else
      var restored, service := RestorePlists(plists, job, n - 1), SERVICES[n - 1];
      if service in job.launchd then restored[service := job.launchd[service]] else restored
  }

  /** A saved file is there for every entry that was one. */
  predicate Saved(job: Job) {
    && (forall i :: 0 <= i < |NAMES| ==> NAMES[i] in job.entries)
    && (forall i :: 0 <= i < |NAMES| && job.entries[NAMES[i]].WasFile? ==> NAMES[i] in job.files)
  }

  function RestoreBin(bins: map<string, Bin>, job: Job, name: string): map<string, Bin>
    requires name in job.entries && (job.entries[name].WasFile? ==> name in job.files)
  {
    match job.entries[name]
    case WasAbsent => bins - {name}
    case WasLink(target) => bins[name := Link(target)]
    case WasFile(mode) => bins[name := File(job.files[name], mode)]
  }

  function RestoreBins(bins: map<string, Bin>, job: Job, n: nat): map<string, Bin>
    requires n <= |NAMES| && Saved(job)
  {
    if n == 0 then bins else RestoreBin(RestoreBins(bins, job, n - 1), job, NAMES[n - 1])
  }

  function RestoredApp(job: Job, hadApp: bool): Option<App> {
    if hadApp then job.previousApp else None
  }

  /** The first `a`, `p` and `b` changes a restore makes to app, plists and commands. */
  function RestoreUpTo(home: Home, job: Job, hadApp: bool, a: bool, p: nat, b: nat): Home
    requires p <= |SERVICES| && b <= |NAMES| && Saved(job)
  {
    Home(if a then RestoredApp(job, hadApp) else home.app, RestorePlists(home.plists, job, p),
         RestoreBins(home.bins, job, b))
  }

  function Restored(home: Home, job: Job, hadApp: bool): Home
    requires Saved(job)
  {
    RestoreUpTo(home, job, hadApp, true, |SERVICES|, |NAMES|)
  }

  // ----- as the script runs -----

  class Machine {
    var home: Home
    var job: Job

    constructor (home: Home, job: Job)
      ensures this.home == home && this.job == job
    {
      this.home, this.job := home, job;
    }

    /** Nothing is touched; a command that is no file refuses the installation before it starts. */
    method Backup() returns (ok: bool)
      modifies this`job
      ensures ok == Replaceable(home)
      ensures ok ==> job == BackedUp(home, old(job))
    {
      if home.app.Some? { job := job.(previousApp := Some(Overlay(job.previousApp, home.app.value))); }
      for i := 0 to |SERVICES|
        invariant job == old(job).(previousApp := BackedUp(home, old(job)).previousApp,
                                   launchd := KeepPlists(home, old(job).launchd, i))
      {
        if SERVICES[i] in home.plists { job := job.(launchd := job.launchd[SERVICES[i] := home.plists[SERVICES[i]]]); }
      }
      var entries: map<string, Prior> := map[];
      for i := 0 to |NAMES|
        invariant entries == KeepEntries(home, i)
        invariant job == BackedUp(home, old(job)).(files := KeepFiles(home, old(job).files, i), entries := old(job).entries)
        invariant forall j :: 0 <= j < i && NAMES[j] in home.bins ==> !home.bins[NAMES[j]].Other?
      {
        var name := NAMES[i];
        if name in home.bins && home.bins[name].Other? { return false; }
        if name in home.bins && home.bins[name].File? {
          job := job.(files := job.files[name := home.bins[name].bytes]);
        }
        entries := entries[name := PriorOf(home, name)];
      }
      job := job.(entries := entries);
      return true;
    }

    /** Fails after `k` changes, or earlier, at a plist that names no executable. */
    method Install(package: Package, k: nat) returns (done: nat)
      requires k <= STEPS
      modifies this`home
      ensures done <= k && home == InstallUpTo(old(home), package, done)
      ensures done < k ==> InstallStep(home, package, done).None?
    {
      for i := 0 to k
        invariant home == InstallUpTo(old(home), package, i)
      {
        var next := InstallStep(home, package, i);
        if next.None? { return i; }
        home := next.value;
      }
      return k;
    }

    method Restore(hadApp: bool)
      requires Saved(job)
      modifies this`home
      ensures home == Restored(old(home), job, hadApp)
    {
      home := home.(app := RestoredApp(job, hadApp));
      for i := 0 to |SERVICES|
        invariant home == RestoreUpTo(old(home), job, hadApp, true, i, 0)
      {
        if SERVICES[i] in job.launchd { home := home.(plists := home.plists[SERVICES[i] := job.launchd[SERVICES[i]]]); }
      }
      for i := 0 to |NAMES|
        invariant home == RestoreUpTo(old(home), job, hadApp, true, |SERVICES|, i)
      {
        home := home.(bins := RestoreBin(home.bins, job, NAMES[i]));
      }
    }
  }
}
