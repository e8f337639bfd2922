/** The app-state inference of rkt's library package: the apps of a pod as
    the API reports them, with their mounts resolved against the pod's
    volumes and their state inferred from the pod. The pod is an input: its
    state, whether it is after run, the stat results of each app's created,
    started and status files, the exit codes it recorded and its creation,
    start and garbage-collection times are what the pod package would
    report for it. */
module RktApp {
  import opened Wrappers

  // ---------------------------------------------------------------------------
  // Pods and app states

  /** The states of the pod package; OtherPodState is any value the switch of
      appStateFromPod does not name. */
  datatype PodState =
    | Embryo | Preparing | AbortedPrepare | Prepared | Running
    | Deleting | ExitedDeleting | Exited | ExitedGarbage | Garbage
    | OtherPodState(name: string)

  /** v1.AppState; NoState is its empty zero value, which newApp's App
      literal starts from. */
  datatype AppState = NoState | AppStateUnknown | AppStateCreated | AppStateRunning | AppStateExited

  /** The pod states in which every app has exited or is being removed. */
  predicate PodIsDone(s: PodState)
  {
    s == Deleting || s == ExitedDeleting || s == Exited || s == ExitedGarbage || s == Garbage
  }

  /** appStateFromPod */
  function AppStateFromPod(s: PodState): (r: AppState)
    ensures r != NoState
    ensures r == AppStateCreated <==> s == Prepared
    ensures r == AppStateRunning <==> s == Running
    ensures r == AppStateExited <==> PodIsDone(s)
    ensures r == AppStateUnknown <==> s != Prepared && s != Running && !PodIsDone(s)
  {
    match s
    case Embryo | Preparing | AbortedPrepare => AppStateUnknown
    case Prepared => AppStateCreated
    case Running => AppStateRunning
    case Deleting | ExitedDeleting | Exited | ExitedGarbage | Garbage => AppStateExited
    case OtherPodState(_) => AppStateUnknown
  }

  /** A time.Time: whether it is the zero time, and its UnixNano. */
  datatype Time = Time(isZero: bool, unixNano: int)

  /** The outcome of os.Stat on one of an app's files: it does not exist, the
      stat failed otherwise, or it exists with the given modification time
      (in Unix nanoseconds). */
  datatype FileStat = Missing | StatFailed(cause: string) | Present(modTime: int)

  /** The stat outcomes of the created, started and status files of an app
      under the pod's stage1 root file system. */
  datatype AppFiles = AppFiles(created: FileStat, started: FileStat, status: FileStat)

  /** What the pod package reports about a pod. */
  datatype Pod = Pod(
    state: PodState,
    isAfterRun: bool,
    stage1RootfsPath: Result<string, string>,
    appFiles: string -> AppFiles,
    appExitCode: string -> Result<int, string>,
    creationTime: Result<Time, string>,
    startTime: Result<Time, string>,
    gcMarkedTime: Time,
    gcMarkedErr: Option<string>)

  datatype StatusFile = CreatedFile | StartedFile | StatusFileOfApp

  /** The errors of this part of rkt. StatError carries the file whose stat
      failed ("cannot stat app creation|started|exited file: ..."),
      GettingState wraps a state error in newApp ("error getting app's
      state: ..."). */
  datatype AppError =
    | PodLoadFailed(cause: string)
    | ManifestFailed(cause: string)
    | RootfsFailed(cause: string)
    | StatError(file: StatusFile, cause: string)
    | CreationTimeFailed(cause: string)
    | StartTimeFailed(cause: string)
    | GCMarkedTimeFailed(cause: string)
    | GettingState(inner: AppError)

  /** Go's int32(code): two's complement truncation of an int to 32 bits. */
  function Int32(x: int): (r: int)
    ensures -0x8000_0000 <= r < 0x8000_0000
    ensures (r - x) % 0x1_0000_0000 == 0
  {
    (x + 0x8000_0000) % 0x1_0000_0000 - 0x8000_0000
  }

  /** The truncation leaves a code that fits in 32 bits as it is. */
  lemma Int32Fits(x: int)
    requires -0x8000_0000 <= x < 0x8000_0000
    ensures Int32(x) == x
  {
  }

  /** The state part of a v1.App: the fields an appStateFunc fills in. */
  datatype AppStatus = AppStatus(
    state: AppState,
    createdAt: Option<int>,
    startedAt: Option<int>,
    finishedAt: Option<int>,
    exitCode: Option<int>)

  /** The state of a freshly made App, before an appStateFunc runs. */
  const InitialStatus := AppStatus(NoState, None, None, None, None)

  /** The new state an appStateFunc leaves, and the error it returns. */
  datatype StateResult = StateResult(status: AppStatus, err: Option<AppError>)

  // ---------------------------------------------------------------------------
  // Mutable pods

  /** The body of appStateInMutablePod up to its returns: Unknown, then one
      step further (Created, Running, Exited, with the file's time) for each
      of the created, started and status files that exists, stopping at the
      first that does not; a failing stat other than not-exist is an error. */
  function MutableSteps(name: string, pod: Pod, prior: AppStatus): StateResult
  {
    var s := prior.(state := AppStateUnknown);
    if pod.stage1RootfsPath.Err? then StateResult(s, Some(RootfsFailed(pod.stage1RootfsPath.error)))
    else
      var files := pod.appFiles(name);
      match files.created
      case Missing => StateResult(s, None)
      case StatFailed(e) => StateResult(s, Some(StatError(CreatedFile, e)))
      case Present(createdAt) =>
        var s := s.(state := AppStateCreated, createdAt := Some(createdAt));
        match files.started
        case Missing => StateResult(s, None)
        case StatFailed(e) => StateResult(s, Some(StatError(StartedFile, e)))
        case Present(startedAt) =>
          var s := s.(state := AppStateRunning, startedAt := Some(startedAt));
          match files.status
          case Missing => StateResult(s, None)
          case StatFailed(e) => StateResult(s, Some(StatError(StatusFileOfApp, e)))
          case Present(finishedAt) =>
            var code := pod.appExitCode(name);
            var exitCode := Int32(if code.Ok? then code.value else 1);
            StateResult(s.(state := AppStateExited, finishedAt := Some(finishedAt), exitCode := Some(exitCode)), None)
  }

  /** The deferred function of appStateInMutablePod: a pod after run whose app
      has not exited was hard killed, so the app is Exited, finished at the
      pod's GC-marked time when that is not zero. */
  function AfterRun(pod: Pod, s: AppStatus): AppStatus
  {
    if pod.isAfterRun && s.state != AppStateExited then
      s.(state := AppStateExited,
         finishedAt := if pod.gcMarkedTime.isZero then s.finishedAt else Some(pod.gcMarkedTime.unixNano))
    else s
  }

  /** appStateInMutablePod: the steps, then the deferred override, which runs
      on every return, the error returns included. */
  function MutableStatus(name: string, pod: Pod, prior: AppStatus): StateResult
  {
    var r := MutableSteps(name, pod, prior);
    StateResult(AfterRun(pod, r.status), r.err)
  }

  /** Reference definition of the progression: the number of files that
      exist before the first that does not. */
  function LeadingPresent(files: AppFiles): (n: nat)
    ensures n <= 3
  {
    if !files.created.Present? then 0
    else if !files.started.Present? then 1
    else if !files.status.Present? then 2
    else 3
  }

  function StageState(n: nat): AppState
    requires n <= 3
  {
    [AppStateUnknown, AppStateCreated, AppStateRunning, AppStateExited][n]
  }

  /** The file at which the progression stopped, if it stopped early. */
  function FirstAbsent(files: AppFiles): Option<(StatusFile, FileStat)>
  {
    if !files.created.Present? then Some((CreatedFile, files.created))
    else if !files.started.Present? then Some((StartedFile, files.started))
    else if !files.status.Present? then Some((StatusFileOfApp, files.status))
    else None
  }

  /** In a mutable pod that is not after run and whose stage1 root is known,
      the state goes one step per existing file and stops at the first
      missing one; there is an error exactly when that file's stat failed
      other than by not existing, and it names that file. */
  lemma MutableProgression(name: string, pod: Pod, prior: AppStatus)
    requires !pod.isAfterRun && pod.stage1RootfsPath.Ok?
    ensures var r := MutableStatus(name, pod, prior);
            var files := pod.appFiles(name);
            && r.status.state == StageState(LeadingPresent(files))
            && (r.err.Some? <==> FirstAbsent(files).Some? && FirstAbsent(files).value.1.StatFailed?)
            && (r.err.Some? ==> r.err.value == StatError(FirstAbsent(files).value.0, FirstAbsent(files).value.1.cause))
  {
  }

  /** Each step records the modification time of the file it found. */
  lemma MutableTimestamps(name: string, pod: Pod, prior: AppStatus)
    requires pod.stage1RootfsPath.Ok?
    ensures var r := MutableStatus(name, pod, prior);
            var files := pod.appFiles(name);
            && (files.created.Present? ==> r.status.createdAt == Some(files.created.modTime))
            && (files.created.Present? && files.started.Present? ==>
                  r.status.startedAt == Some(files.started.modTime))
            && (files.created.Present? && files.started.Present? && files.status.Present? ==>
                  r.status.finishedAt == Some(files.status.modTime))
  {
  }

  /** When the status file exists but the exit code cannot be read, the exit
      code is a generic 1; a code that can be read is kept, truncated to
      32 bits. */
  lemma ExitCodeDefaultsToOne(name: string, pod: Pod, prior: AppStatus)
    requires pod.stage1RootfsPath.Ok?
    requires LeadingPresent(pod.appFiles(name)) == 3
    ensures var r := MutableStatus(name, pod, prior);
            && r.err.None?
            && r.status.state == AppStateExited
            && (pod.appExitCode(name).Err? ==> r.status.exitCode == Some(1))
            && (pod.appExitCode(name).Ok? ==> r.status.exitCode == Some(Int32(pod.appExitCode(name).value)))
  {
  }

  /** A pod after run leaves its apps Exited whatever the files say, the
      error returns included. */
  lemma AfterRunForcesExited(name: string, pod: Pod, prior: AppStatus)
    requires pod.isAfterRun
    ensures MutableStatus(name, pod, prior).status.state == AppStateExited
  {
  }

  // ---------------------------------------------------------------------------
  // Immutable pods

  /** appStateInImmutablePod: the state follows the pod's, is Exited when
      there is an exit code, and the times come from the pod. */
  function ImmutableStatus(name: string, pod: Pod, prior: AppStatus): StateResult
  {
    var s := prior.(state := AppStateFromPod(pod.state));
    match pod.creationTime
    case Err(e) => StateResult(s, Some(CreationTimeFailed(e)))
    case Ok(created) =>
      var s := s.(createdAt := Some(created.unixNano));
      var code := pod.appExitCode(name);
      var s := if code.Ok? then s.(state := AppStateExited, exitCode := Some(Int32(code.value))) else s;
      match pod.startTime
      case Err(e) => StateResult(s, Some(StartTimeFailed(e)))
      case Ok(start) =>
        var s := if start.isZero then s else s.(startedAt := Some(start.unixNano));
        if pod.gcMarkedErr.Some? then StateResult(s, Some(GCMarkedTimeFailed(pod.gcMarkedErr.value)))
        else
          var finish := pod.gcMarkedTime;
          StateResult(if finish.isZero then s else s.(finishedAt := Some(finish.unixNano)), None)
  }

  /** Once the creation time is known, an available exit code makes the app
      Exited whatever the pod state; without one the state is the pod's. */
  lemma ImmutableExitCodeMeansExited(name: string, pod: Pod, prior: AppStatus)
    requires pod.creationTime.Ok?
    ensures var r := ImmutableStatus(name, pod, prior);
            && (pod.appExitCode(name).Ok? ==>
                  r.status.state == AppStateExited
                  && r.status.exitCode == Some(Int32(pod.appExitCode(name).value)))
            && (pod.appExitCode(name).Err? ==>
                  r.status.state == AppStateFromPod(pod.state) && r.status.exitCode == prior.exitCode)
  {
  }

  /** Immutable pods fail only on the pod's own time queries, in the order
      creation, start, GC mark. */
  lemma ImmutableErrors(name: string, pod: Pod, prior: AppStatus)
    ensures var r := ImmutableStatus(name, pod, prior);
            && (r.err.None? <==> pod.creationTime.Ok? && pod.startTime.Ok? && pod.gcMarkedErr.None?)
            && (pod.creationTime.Err? ==> r.err == Some(CreationTimeFailed(pod.creationTime.error)))
            && (pod.creationTime.Ok? && pod.startTime.Err? ==> r.err == Some(StartTimeFailed(pod.startTime.error)))
  {
  }

  /** An appStateFunc, as the function it computes: from the app's name, the
      pod and the app's state fields to the new state fields and the error.
      MutableStatus and ImmutableStatus are the two of this file, and the
      methods AppStateInMutablePod and AppStateInImmutablePod compute them
      in place. */
  type AppStateFunc = (string, Pod, AppStatus) -> StateResult

  // ---------------------------------------------------------------------------
  // Volumes and mounts

  /** A volume of the pod manifest, or the optional AppVolume of a mount. */
  datatype Volume = Volume(name: string, source: string, readOnly: Option<bool>)

  /** A mount of a runtime app. */
  datatype MountPoint = MountPoint(volume: string, path: string, appVolume: Option<Volume>)

  /** A v1.Mount. */
  datatype AppMount = AppMount(name: string, containerPath: string, hostPath: string, readOnly: bool)

  datatype RuntimeApp = RuntimeApp(
    name: string, imageID: string,
    userAnnotations: map<string, string>, userLabels: map<string, string>,
    mounts: seq<MountPoint>)

  datatype PodManifest = PodManifest(apps: seq<RuntimeApp>, volumes: seq<Volume>)

  /** podVolsByName: the volumes by name, a later volume of a name replacing
      an earlier one. */
  function VolumesByName(vols: seq<Volume>): (m: map<string, Volume>)
    ensures forall n :: n in m <==> exists i :: 0 <= i < |vols| && vols[i].name == n
  {
    if |vols| == 0 then map[]
    else
      var n := |vols| - 1;
      VolumesByName(vols[..n])[vols[n].name := vols[n]]
  }

  /** The volume stored under a name is the last one of that name. */
  lemma {:induction false} VolumesByNameLastWins(vols: seq<Volume>, i: nat)
    requires i < |vols|
    requires forall j :: i < j < |vols| ==> vols[j].name != vols[i].name
    ensures VolumesByName(vols)[vols[i].name] == vols[i]
    decreases |vols|
  {
    var n := |vols| - 1;
    if i < n {
      VolumesByNameLastWins(vols[..n], i);
    }
  }

  method BuildVolumesByName(vols: seq<Volume>) returns (m: map<string, Volume>)
    ensures m == VolumesByName(vols)
  {
    m := map[];
    var i := 0;
    while i < |vols|
      invariant i <= |vols|
      invariant m == VolumesByName(vols[..i])
    {
      assert vols[..i + 1][..i] == vols[..i];
      m := m[vols[i].name := vols[i]];
      i := i + 1;
    }
    assert vols[..i] == vols;
  }

  /** A nil ReadOnly means false. */
  function ReadOnlyOf(ro: Option<bool>): (b: bool)
    ensures b <==> ro == Some(true)
  {
    match ro
    case None => false
    case Some(v) => v
  }

  /** The v1.Mount of a runtime-app mount: the host path and read-only flag
      come from its AppVolume when it has one, and from the pod volume of its
      name otherwise (the zero Volume when there is none). */
  function ResolveMount(mnt: MountPoint, byName: map<string, Volume>): (r: AppMount)
    ensures r.name == mnt.volume && r.containerPath == mnt.path
    ensures mnt.appVolume.Some? ==>
              r.hostPath == mnt.appVolume.value.source && (r.readOnly <==> mnt.appVolume.value.readOnly == Some(true))
    ensures mnt.appVolume.None? && mnt.volume in byName ==>
              r.hostPath == byName[mnt.volume].source && (r.readOnly <==> byName[mnt.volume].readOnly == Some(true))
    ensures mnt.appVolume.None? && mnt.volume !in byName ==> r.hostPath == "" && !r.readOnly
  {
    match mnt.appVolume
    case Some(av) => AppMount(mnt.volume, mnt.path, av.source, ReadOnlyOf(av.readOnly))
    case None =>
      if mnt.volume in byName then
        AppMount(mnt.volume, mnt.path, byName[mnt.volume].source, ReadOnlyOf(byName[mnt.volume].readOnly))
      else AppMount(mnt.volume, mnt.path, "", false)
  }

  /** The mounts of newApp, one per runtime-app mount, in order. */
  function ResolveMounts(mounts: seq<MountPoint>, byName: map<string, Volume>): (r: seq<AppMount>)
    ensures |r| == |mounts|
  {
    if |mounts| == 0 then []
    else
      var n := |mounts| - 1;
      ResolveMounts(mounts[..n], byName) + [ResolveMount(mounts[n], byName)]
  }

  /** Mount k of the app is the resolution of mount k of the runtime app. */
  lemma {:induction false} ResolveMountsAt(mounts: seq<MountPoint>, byName: map<string, Volume>)
    ensures forall k :: 0 <= k < |mounts| ==> ResolveMounts(mounts, byName)[k] == ResolveMount(mounts[k], byName)
    decreases |mounts|
  {
    if |mounts| > 0 {
      var n := |mounts| - 1;
      ResolveMountsAt(mounts[..n], byName);
      assert forall k :: 0 <= k < n ==> mounts[..n][k] == mounts[k];
    }
  }

  /** A mount without an AppVolume takes the last pod volume of its name. */
  lemma PodVolumeOfMount(mnt: MountPoint, vols: seq<Volume>, i: nat)
    requires mnt.appVolume.None?
    requires i < |vols| && vols[i].name == mnt.volume
    requires forall j :: i < j < |vols| ==> vols[j].name != mnt.volume
    ensures ResolveMount(mnt, VolumesByName(vols)).hostPath == vols[i].source
    ensures ResolveMount(mnt, VolumesByName(vols)).readOnly <==> vols[i].readOnly == Some(true)
  {
    VolumesByNameLastWins(vols, i);
  }

  // ---------------------------------------------------------------------------
  // Apps

  /** A v1.App as newApp builds it and an appStateFunc fills it in. */
  class App {
    var name: string
    var imageID: string
    var userAnnotations: map<string, string>
    var userLabels: map<string, string>
    var mounts: seq<AppMount>
    var state: AppState
    var createdAt: Option<int>
    var startedAt: Option<int>
    var finishedAt: Option<int>
    var exitCode: Option<int>

    function Status(): AppStatus
      reads this
    {
      AppStatus(state, createdAt, startedAt, finishedAt, exitCode)
    }

    /** The App literal of newApp. */
    constructor (ra: RuntimeApp)
      ensures name == ra.name && imageID == ra.imageID
      ensures userAnnotations == ra.userAnnotations && userLabels == ra.userLabels
      ensures mounts == [] && Status() == InitialStatus
    {
      name := ra.name;
      imageID := ra.imageID;
      userAnnotations := ra.userAnnotations;
      userLabels := ra.userLabels;
      mounts := [];
      state := NoState;
      createdAt, startedAt, finishedAt, exitCode := None, None, None, None;
    }

    /** The mount loop of newApp. */
    method AddMounts(raMounts: seq<MountPoint>, byName: map<string, Volume>)
      modifies this
      ensures mounts == old(mounts) + ResolveMounts(raMounts, byName)
      ensures name == old(name) && imageID == old(imageID)
      ensures userAnnotations == old(userAnnotations) && userLabels == old(userLabels)
      ensures Status() == old(Status())
    {
      var i := 0;
      while i < |raMounts|
        invariant i <= |raMounts|
        invariant mounts == old(mounts) + ResolveMounts(raMounts[..i], byName)
        invariant name == old(name) && imageID == old(imageID)
        invariant userAnnotations == old(userAnnotations) && userLabels == old(userLabels)
        invariant Status() == old(Status())
      {
        var mnt := raMounts[i];
        var readOnly := false;
        var hostPath: string;
        if mnt.appVolume.Some? {
          var av := mnt.appVolume.value;
          hostPath := av.source;
          if av.readOnly.Some? {
            readOnly := av.readOnly.value;
          }
        } else if mnt.volume in byName {
          hostPath := byName[mnt.volume].source;
          if byName[mnt.volume].readOnly.Some? {
            readOnly := byName[mnt.volume].readOnly.value;
          }
        } else {
          hostPath := "";
        }
        assert raMounts[..i + 1][..i] == raMounts[..i];
        mounts := mounts + [AppMount(mnt.volume, mnt.path, hostPath, readOnly)];
        i := i + 1;
      }
      assert raMounts[..i] == raMounts;
    }

    /** appStateInMutablePod up to its returns. */
    method MutableStepsOf(pod: Pod) returns (err: Option<AppError>)
      modifies this
      ensures StateResult(Status(), err) == MutableSteps(old(name), pod, old(Status()))
      ensures name == old(name) && mounts == old(mounts)
      ensures imageID == old(imageID) && userAnnotations == old(userAnnotations) && userLabels == old(userLabels)
    {
      state := AppStateUnknown;
      if pod.stage1RootfsPath.Err? {
        return Some(RootfsFailed(pod.stage1RootfsPath.error));
      }
      var files := pod.appFiles(name);

      if !files.created.Present? {
        if files.created.StatFailed? {
          return Some(StatError(CreatedFile, files.created.cause));
        }
        return None;
      }
      state := AppStateCreated;
      createdAt := Some(files.created.modTime);

      if !files.started.Present? {
        if files.started.StatFailed? {
          return Some(StatError(StartedFile, files.started.cause));
        }
        return None;
      }
      state := AppStateRunning;
      startedAt := Some(files.started.modTime);

      if !files.status.Present? {
        if files.status.StatFailed? {
          return Some(StatError(StatusFileOfApp, files.status.cause));
        }
        return None;
      }
      state := AppStateExited;
      finishedAt := Some(files.status.modTime);

      var code := pod.appExitCode(name);
      var c := if code.Ok? then code.value else 1;
      exitCode := Some(Int32(c));
      return None;
    }

    /** appStateInMutablePod, with its deferred after-run override. */
    method AppStateInMutablePod(pod: Pod) returns (err: Option<AppError>)
      modifies this
      ensures StateResult(Status(), err) == MutableStatus(old(name), pod, old(Status()))
      ensures name == old(name) && mounts == old(mounts)
      ensures imageID == old(imageID) && userAnnotations == old(userAnnotations) && userLabels == old(userLabels)
    {
      err := MutableStepsOf(pod);
      // deferred
      if pod.isAfterRun {
        if state != AppStateExited {
          state := AppStateExited;
          var t := pod.gcMarkedTime;
          if !t.isZero {
            finishedAt := Some(t.unixNano);
          }
        }
      }
    }

    /** appStateInImmutablePod */
    method AppStateInImmutablePod(pod: Pod) returns (err: Option<AppError>)
      modifies this
      ensures StateResult(Status(), err) == ImmutableStatus(old(name), pod, old(Status()))
      ensures name == old(name) && mounts == old(mounts)
      ensures imageID == old(imageID) && userAnnotations == old(userAnnotations) && userLabels == old(userLabels)
    {
      state := AppStateFromPod(pod.state);

      if pod.creationTime.Err? {
        return Some(CreationTimeFailed(pod.creationTime.error));
      }
      createdAt := Some(pod.creationTime.value.unixNano);

      var code := pod.appExitCode(name);
      if code.Ok? {
        state := AppStateExited;
        exitCode := Some(Int32(code.value));
      }

      if pod.startTime.Err? {
        return Some(StartTimeFailed(pod.startTime.error));
      }
      var start := pod.startTime.value;
      if !start.isZero {
        startedAt := Some(start.unixNano);
      }

      if pod.gcMarkedErr.Some? {
        return Some(GCMarkedTimeFailed(pod.gcMarkedErr.value));
      }
      var finish := pod.gcMarkedTime;
      if !finish.isZero {
        finishedAt := Some(finish.unixNano);
      }
      return None;
    }

    /** appState(app, pod): the state fields become what the appStateFunc
        computes from them. */
    method ApplyState(appState: AppStateFunc, pod: Pod) returns (err: Option<AppError>)
      modifies this
      ensures StateResult(Status(), err) == appState(old(name), pod, old(Status()))
      ensures name == old(name) && mounts == old(mounts)
      ensures imageID == old(imageID) && userAnnotations == old(userAnnotations) && userLabels == old(userLabels)
    {
      var r := appState(name, pod, Status());
      state, createdAt, startedAt := r.status.state, r.status.createdAt, r.status.startedAt;
      finishedAt, exitCode := r.status.finishedAt, r.status.exitCode;
      err := r.err;
    }
  }

  /** The App newApp returns for a runtime app of a manifest. */
  predicate Built(app: App, ra: RuntimeApp, manifest: PodManifest, pod: Pod, appState: AppStateFunc)
    reads app
  {
    && app.name == ra.name && app.imageID == ra.imageID
    && app.userAnnotations == ra.userAnnotations && app.userLabels == ra.userLabels
    && app.mounts == ResolveMounts(ra.mounts, VolumesByName(manifest.volumes))
    && app.Status() == appState(ra.name, pod, InitialStatus).status
  }

  /** newApp: nil and the wrapped state error when the state cannot be
      inferred, the built App otherwise. */
  method NewApp(ra: RuntimeApp, manifest: PodManifest, pod: Pod, appState: AppStateFunc)
    returns (app: App?, err: Option<AppError>)
    ensures var r := appState(ra.name, pod, InitialStatus);
            && (r.err.Some? ==> app == null && err == Some(GettingState(r.err.value)))
            && (r.err.None? ==> app != null && err.None? && fresh(app) && Built(app, ra, manifest, pod, appState))
  {
    var a := new App(ra);
    var podVolsByName := BuildVolumesByName(manifest.volumes);
    a.AddMounts(ra.mounts, podVolsByName);
    var e := a.ApplyState(appState, pod);
    if e.Some? {
      return null, Some(GettingState(e.value));
    }
    return a, None;
  }

  /** The runtime apps appsForPod returns an App for, in manifest order: those
      whose name passes the filter and whose state can be inferred. */
  function Selected(ras: seq<RuntimeApp>, appName: string, pod: Pod, appState: AppStateFunc): (r: seq<RuntimeApp>)
    ensures |r| <= |ras|
  {
    if |ras| == 0 then []
    else
      var n := |ras| - 1;
      var ra := ras[n];
      Selected(ras[..n], appName, pod, appState)
        + (if (appName == "" || appName == ra.name) && appState(ra.name, pod, InitialStatus).err.None?
           then [ra] else [])
  }

  /** An empty name keeps every app, a non-empty one only the apps of that
      name; apps whose state cannot be inferred are skipped. */
  lemma {:induction false} SelectedMembers(ras: seq<RuntimeApp>, appName: string, pod: Pod, appState: AppStateFunc)
    ensures forall ra :: ra in Selected(ras, appName, pod, appState) <==>
              ra in ras && (appName == "" || ra.name == appName)
              && appState(ra.name, pod, InitialStatus).err.None?
    decreases |ras|
  {
    if |ras| > 0 {
      var n := |ras| - 1;
      SelectedMembers(ras[..n], appName, pod, appState);
      assert ras == ras[..n] + [ras[n]];
    }
  }

  /** With an empty name and a state that can always be inferred, every app
      of the manifest is returned, in order. */
  lemma {:induction false} SelectedAll(ras: seq<RuntimeApp>, pod: Pod, appState: AppStateFunc)
    requires forall k :: 0 <= k < |ras| ==> appState(ras[k].name, pod, InitialStatus).err.None?
    ensures Selected(ras, "", pod, appState) == ras
    decreases |ras|
  {
    if |ras| > 0 {
      var n := |ras| - 1;
      SelectedAll(ras[..n], pod, appState);
      assert ras == ras[..n] + [ras[n]];
    }
  }

  /** One turn of the loop of appsForPod: skip an app of another name, build
      the others, and skip those newApp fails on (the error is only reported
      on stderr). */
  method AppIfSelected(ra: RuntimeApp, appName: string, manifest: PodManifest, pod: Pod, appState: AppStateFunc)
    returns (app: App?)
    ensures app != null <==> (appName == "" || appName == ra.name) && appState(ra.name, pod, InitialStatus).err.None?
    ensures app != null ==> fresh(app) && Built(app, ra, manifest, pod, appState)
  {
    if appName != "" && appName != ra.name {
      return null;
    }
    var a, e := NewApp(ra, manifest, pod, appState);
    if e.Some? {
      return null;
    }
    return a;
  }

  /** appsForPod: the Apps of the selected runtime apps, each newly made; a
      manifest that cannot be read is the only error. */
  method AppsForPodWith(pod: Pod, manifest: Result<PodManifest, string>, appName: string, appState: AppStateFunc)
    returns (apps: seq<App>, err: Option<AppError>)
    ensures manifest.Err? ==> apps == [] && err == Some(ManifestFailed(manifest.error))
    ensures manifest.Ok? ==>
              var sel := Selected(manifest.value.apps, appName, pod, appState);
              && err.None? && |apps| == |sel|
              && (forall k :: 0 <= k < |apps| ==> fresh(apps[k]) && Built(apps[k], sel[k], manifest.value, pod, appState))
              && (forall j, k :: 0 <= j < k < |apps| ==> apps[j] != apps[k])
  {
    if manifest.Err? {
      return [], Some(ManifestFailed(manifest.error));
    }
    var podManifest := manifest.value;
    var ras := podManifest.apps;
    apps := [];
    ghost var sel: seq<RuntimeApp> := [];
    var i := 0;
    while i < |ras|
      invariant i <= |ras|
      invariant sel == Selected(ras[..i], appName, pod, appState)
      invariant |apps| == |sel|
      invariant forall k :: 0 <= k < |apps| ==> fresh(apps[k]) && Built(apps[k], sel[k], podManifest, pod, appState)
      invariant forall j, k :: 0 <= j < k < |apps| ==> apps[j] != apps[k]
    {
      var ra := ras[i];
      assert ras[..i + 1][..i] == ras[..i];
      var app := AppIfSelected(ra, appName, podManifest, pod, appState);
      if app != null {
        apps := apps + [app];
        sel := sel + [ra];
      }
      i := i + 1;
    }
    assert ras[..i] == ras;
    err := None;
  }

  /** AppsForPod: the pod is loaded from its UUID (an input here, as is its
      manifest), and the state inferred as in a mutable pod. */
  method AppsForPod(loaded: Result<Pod, string>, manifest: Result<PodManifest, string>, appName: string)
    returns (apps: seq<App>, err: Option<AppError>)
    ensures loaded.Err? ==> apps == [] && err == Some(PodLoadFailed(loaded.error))
    ensures loaded.Ok? && manifest.Err? ==> apps == [] && err == Some(ManifestFailed(manifest.error))
    ensures loaded.Ok? && manifest.Ok? ==>
              var sel := Selected(manifest.value.apps, appName, loaded.value, MutableStatus);
              && err.None? && |apps| == |sel|
              && forall k :: 0 <= k < |apps| ==> fresh(apps[k]) && Built(apps[k], sel[k], manifest.value, loaded.value, MutableStatus)
  {
    if loaded.Err? {
      return [], Some(PodLoadFailed(loaded.error));
    }
    apps, err := AppsForPodWith(loaded.value, manifest, appName, MutableStatus);
  }
}
