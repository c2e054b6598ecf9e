/**
 * `run_command_in_container` (dodo.py, lines 220-254): create a container,
 * start it, echo its output, wait for it, and remove it whatever happened
 * after it was created.
 */
module ContainerRun {
  import opened Wrappers
  import opened DockerEngine
  import LinePrinter

  /** The key of `host_config` whose presence makes the command run as the calling user. */
  const PRIVILEGED_KEY := "privileged"

  /**
   * How the daemon answers each step of one run: whether creating or starting
   * the container raises, the output its log stream yields, and the exit
   * status `wait` reports (`None` when `wait` raises).
   */
  datatype Faults = Faults(createFails: bool, startFails: bool, logs: LinePrinter.Chunks, waitStatus: Option<int>)

  /** The exception a run ends with. */
  datatype RunError =
    | HostConfigMissing                      // `"privileged" in None` raises `TypeError`
    | CreateFailed
    | StartFailed
    | PrintFailed(reason: LinePrinter.PrintOutcome)
    | WaitFailed

  datatype RunOutcome = Returned(ok: bool) | Raised(error: RunError)

  datatype RunTrace = RunTrace(calls: seq<Call>, printed: seq<string>, outcome: RunOutcome)

  /** The user the container runs as: the caller's uid only when the host configuration asks for privileges. */
  function UserFor(hostConfig: HostConfig, uid: int): (r: Option<int>)
    ensures r.Some? <==> PRIVILEGED_KEY in hostConfig
    ensures r.Some? ==> r.value == uid
  {
    if PRIVILEGED_KEY in hostConfig then Some(uid) else None
  }

  /**
   * The `try`/`finally` part of a run, once the container `id` exists: start
   * it, print its log stream, wait for it, and remove it on every path. The
   * first call starts the container and the last removes it, and the block
   * completes exactly when start, printing and wait all succeed.
   */
  function AfterCreate(id: Id, f: Faults): (r: RunTrace)
    ensures 2 <= |r.calls| && r.calls[0] == Start(id) && r.calls[|r.calls| - 1] == RemoveContainer(id, true, true)
    ensures r.outcome.Returned? <==>
      !f.startFails && LinePrinter.PrintTextModel(f.logs).outcome == LinePrinter.Completed && f.waitStatus.Some?
  {
    var remove := RemoveContainer(id, true, true);
    if f.startFails then RunTrace([Start(id), remove], [], Raised(StartFailed))
    else
      var p := LinePrinter.PrintTextModel(f.logs);
      var logs := Logs(id, true, true, true, true);
      if p.outcome != LinePrinter.Completed then
        RunTrace([Start(id), logs, remove], p.calls, Raised(PrintFailed(p.outcome)))
      else if f.waitStatus.None? then
        RunTrace([Start(id), logs, Wait(id), remove], p.calls, Raised(WaitFailed))
      else
        RunTrace([Start(id), logs, Wait(id), remove], p.calls, Returned(f.waitStatus.value == 0))
  }

  /**
   * The daemon calls, printed lines and outcome of one run, where `newId` is
   * the id the daemon gives the new container. Without a host configuration
   * no call is made at all; a run that returns reports whether `wait` gave 0.
   */
  function RunModel(image: string, command: Command, volumes: Option<seq<string>>,
                    hostConfig: Option<HostConfig>, uid: int, newId: Id, f: Faults): (r: RunTrace)
    ensures r.calls == [] <==> hostConfig.None?
    ensures r.outcome.Returned? ==> f.waitStatus.Some? && (r.outcome.ok <==> f.waitStatus.value == 0)
  {
    if hostConfig.None? then RunTrace([], [], Raised(HostConfigMissing))
    else
      var hc := hostConfig.value;
      var create := CreateContainer(image, command, UserFor(hc, uid), true, true, volumes, hc);
      if f.createFails then RunTrace([create], [], Raised(CreateFailed))
      else
        var rest := AfterCreate(newId, f);
        RunTrace([create] + rest.calls, rest.printed, rest.outcome)
  }

  /**
   * The `try`/`finally` block of `run_command_in_container`: an exception
   * raised inside it is held as `pending` while the container is removed.
   */
  method RunCreated(engine: Engine, containerId: Id, f: Faults) returns (printed: seq<string>, outcome: RunOutcome)
    modifies engine`containers, engine`calls
    ensures engine.containers == DropContainers(old(engine.containers), {containerId})
    ensures var t := AfterCreate(containerId, f);
      engine.calls == old(engine.calls) + t.calls && printed == t.printed && outcome == t.outcome
  {
    ghost var calls0 := engine.calls;
    ghost var made: seq<Call> := [];
    printed := [];
    var exitCode := -1;
    var pending: Option<RunError> := None;
    var started := engine.StartCall(containerId, f.startFails);
    made := made + [Start(containerId)];
    if !started {
      pending := Some(StartFailed);
    } else {
      var generator := engine.LogsCall(containerId, f.logs);
      AppendAssoc(calls0, made, [Logs(containerId, true, true, true, true)]);
      made := made + [Logs(containerId, true, true, true, true)];
      var lines, printOutcome := LinePrinter.PrintText(generator);
      printed := lines;
      if printOutcome != LinePrinter.Completed {
        pending := Some(PrintFailed(printOutcome));
      } else {
        var status := engine.WaitCall(containerId, f.waitStatus);
        AppendAssoc(calls0, made, [Wait(containerId)]);
        made := made + [Wait(containerId)];
        if status.None? {
          pending := Some(WaitFailed);
        } else {
          exitCode := status.value;
        }
      }
    }
    engine.RemoveContainerCall(containerId, true, true);
    AppendAssoc(calls0, made, [RemoveContainer(containerId, true, true)]);
    made := made + [RemoveContainer(containerId, true, true)];
    outcome := if pending.Some? then Raised(pending.value) else Returned(exitCode == 0);
  }

  /** `run_command_in_container` against the engine. */
  method RunCommandInContainer(engine: Engine, fullImageName: string, command: Command,
                               volumes: Option<seq<string>>, hostConfig: Option<HostConfig>,
                               uid: int, f: Faults)
    returns (printed: seq<string>, outcome: RunOutcome)
    modifies engine
    ensures engine.containers == old(engine.containers) && engine.images == old(engine.images)
    ensures var t := RunModel(fullImageName, command, volumes, hostConfig, uid, FreshId(old(engine.containers)), f);
      engine.calls == old(engine.calls) + t.calls && printed == t.printed && outcome == t.outcome
  {
    printed := [];
    if hostConfig.None? {
      outcome := Raised(HostConfigMissing);
      return;
    }
    var hc := hostConfig.value;
    var user := UserFor(hc, uid);
    var containerInfo := engine.CreateContainerCall(fullImageName, command, user, true, true, volumes, hc, f.createFails);
    if containerInfo.None? {
      outcome := Raised(CreateFailed);
      return;
    }
    var containerId := containerInfo.value;
    printed, outcome := RunCreated(engine, containerId, f);
    AppendAssoc(old(engine.calls), [CreateContainer(fullImageName, command, user, true, true, volumes, hc)],
                AfterCreate(containerId, f).calls);
    DropAppended(old(engine.containers), Container(containerId, containerId));
  }

  /** How many calls remove the container with the given id. */
  function Removals(calls: seq<Call>, id: Id): (n: nat)
    ensures n <= |calls|
    ensures n == 0 <==> forall k :: 0 <= k < |calls| ==> !(calls[k].RemoveContainer? && calls[k].id == id)
  {
    if calls == [] then 0
    else
      var rest := Removals(calls[1..], id);
      assert forall k :: 1 <= k < |calls| ==> calls[k] == calls[1..][k - 1];
      (if calls[0].RemoveContainer? && calls[0].id == id then 1 else 0) + rest
  }

  /**
   * Once the container exists it is removed exactly once, with its volumes
   * and by force, and that removal is the last call of the run.
   */
  lemma RemovedOnceAfterCreate(image: string, command: Command, volumes: Option<seq<string>>,
                               hostConfig: Option<HostConfig>, uid: int, newId: Id, f: Faults)
    requires hostConfig.Some? && !f.createFails
    ensures var t := RunModel(image, command, volumes, hostConfig, uid, newId, f);
      Removals(t.calls, newId) == 1 && t.calls[|t.calls| - 1] == RemoveContainer(newId, true, true)
  {
    var t := RunModel(image, command, volumes, hostConfig, uid, newId, f);
    var n := |t.calls|;
    assert t.calls[..n - 1] + [t.calls[n - 1]] == t.calls;
    RemovalsSplit(t.calls[..n - 1], t.calls[n - 1], newId);
    var pre := t.calls[..n - 1];
    assert forall k :: 0 <= k < |pre| ==> !pre[k].RemoveContainer?;
  }

  lemma {:induction false} RemovalsSplit(calls: seq<Call>, c: Call, id: Id)
    ensures Removals(calls + [c], id) == Removals(calls, id) + Removals([c], id)
  {
    if calls != [] {
      assert (calls + [c])[1..] == calls[1..] + [c];
      RemovalsSplit(calls[1..], c, id);
    }
  }

  /** Without a container, nothing is started or removed. */
  lemma NothingRemovedWithoutContainer(image: string, command: Command, volumes: Option<seq<string>>,
                                       hostConfig: Option<HostConfig>, uid: int, newId: Id, f: Faults)
    requires hostConfig.None? || f.createFails
    ensures var t := RunModel(image, command, volumes, hostConfig, uid, newId, f);
      |t.calls| <= 1 && Removals(t.calls, newId) == 0 && t.printed == [] && t.outcome.Raised?
  {
  }

  /**
   * A run returns exactly when every step up to `wait` succeeded, and then
   * returns whether the exit status is 0; the initial status -1 is never
   * what a run reports.
   */
  lemma ReturnsIffWaitCompleted(image: string, command: Command, volumes: Option<seq<string>>,
                                hostConfig: Option<HostConfig>, uid: int, newId: Id, f: Faults)
    ensures var t := RunModel(image, command, volumes, hostConfig, uid, newId, f);
      (t.outcome.Returned? <==>
        hostConfig.Some? && !f.createFails && !f.startFails &&
        LinePrinter.PrintTextModel(f.logs).outcome == LinePrinter.Completed && f.waitStatus.Some?) &&
      (t.outcome.Returned? ==> (t.outcome.ok <==> f.waitStatus.value == 0))
  {
  }

  /** The command runs as the caller exactly when the host configuration holds the privileged key. */
  lemma UserOnlyWhenPrivileged(image: string, command: Command, volumes: Option<seq<string>>,
                               hostConfig: HostConfig, uid: int, newId: Id, f: Faults)
    ensures var t := RunModel(image, command, volumes, Some(hostConfig), uid, newId, f);
      t.calls[0].CreateContainer? && t.calls[0].image == image && t.calls[0].hostConfig == hostConfig &&
      t.calls[0].tty && t.calls[0].stdinOpen &&
      (t.calls[0].user.Some? <==> PRIVILEGED_KEY in hostConfig) &&
      (t.calls[0].user.Some? ==> t.calls[0].user.value == uid)
  {
  }

  /** What a run prints is what the log stream printer prints, once the container has started. */
  lemma PrintsTheLogs(image: string, command: Command, volumes: Option<seq<string>>,
                      hostConfig: Option<HostConfig>, uid: int, newId: Id, f: Faults)
    ensures var t := RunModel(image, command, volumes, hostConfig, uid, newId, f);
      t.printed == (if hostConfig.None? || f.createFails || f.startFails then []
                    else LinePrinter.PrintTextModel(f.logs).calls)
  {
  }
}
