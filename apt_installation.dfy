/** `AptInstallation`: the object that installs an apt replacement through aptdaemon.
    It refreshes the package cache first when the cache does not know the package,
    installs, and when the install dialog closes launches the application or confirms
    the installation, then emits `finished`, on which the guard quits. */
module AptInstall {
  import opened Wrappers
  import opened Catalog
  import opened Availability

  /** aptdaemon's exit status of a transaction that succeeded. */
  const ExitSuccess: string := "exit-success"

  /** aptdaemon's `ERROR_UNKNOWN` error code. */
  const ErrorUnknown: string := "error-unknown"

  /** Errors the progress dialogs pass to `on_error`. `OtherError` carries `str(error)`. */
  datatype AptError =
    | NotAuthorizedError
    | TransactionFailed(code: string, details: string)
    | OtherError(text: string)

  /** The classification in `on_error`: an authorisation refusal shows nothing, a
      transaction failure is shown as it is, and anything else is shown as a transaction
      failure with the unknown-error code, so every error dialog has one shape. */
  function ClassifyError(error: AptError): (shown: Option<AptError>)
    ensures shown.None? <==> error.NotAuthorizedError?
    ensures shown.Some? ==> shown.value.TransactionFailed?
    ensures error.TransactionFailed? ==> shown == Some(error)
    ensures error.OtherError? ==> shown == Some(TransactionFailed(ErrorUnknown, error.text))
  {
    match error
    case NotAuthorizedError => None
    case TransactionFailed(_, _) => Some(error)
    case OtherError(text) => Some(TransactionFailed(ErrorUnknown, text))
  }

  /** The error dialogs one call of `on_error` shows. */
  function ErrorDialogsFor(error: AptError): (ds: seq<AptError>)
    ensures ds == [] <==> error.NotAuthorizedError?
    ensures |ds| <= 1
    ensures ds != [] ==> Some(ds[0]) == ClassifyError(error)
  {
    match ClassifyError(error)
    case Some(shown) => [shown]
    case None => []
  }

  /** What the object does to the world, in order: the two kinds of aptdaemon
      transaction, the launch or confirmation after a successful install, and the
      `finished` signal. */
  datatype Effect =
    | CacheUpdateRequested
    | InstallRequested(package: string)
    | DesktopLaunched(desktopId: string)
    | InstalledNotice(name: string)        // "%s has been installed"
    | FinishedEmitted

  /** How many times `finished` was emitted. */
  function Emissions(effects: seq<Effect>): nat
  {
    if effects == [] then 0
    else (if effects[0] == FinishedEmitted then 1 else 0) + Emissions(effects[1..])
  }

  /** Emissions add up over a concatenation. */
  lemma {:induction false} EmissionsAppend(a: seq<Effect>, b: seq<Effect>)
    ensures Emissions(a + b) == Emissions(a) + Emissions(b)
    decreases |a|
  {
    if a == [] {
      assert a + b == b;
    } else {
      assert (a + b)[1..] == a[1..] + b;
      EmissionsAppend(a[1..], b);
    }
  }

  /** No `finished` among the effects, no emission. */
  lemma {:induction false} NoEmissions(effects: seq<Effect>)
    requires FinishedEmitted !in effects
    ensures Emissions(effects) == 0
    decreases |effects|
  {
    if effects != [] {
      assert forall e :: e in effects[1..] ==> e in effects;
      NoEmissions(effects[1..]);
    }
  }

  /** Appending a report without emissions and then the emission adds exactly one. */
  lemma EmissionsAfterReport(before: seq<Effect>, shown: seq<Effect>)
    requires FinishedEmitted !in shown
    ensures Emissions(before + shown + [FinishedEmitted]) == Emissions(before) + 1
  {
    EmissionsAppend(before, shown);
    EmissionsAppend(before + shown, [FinishedEmitted]);
    NoEmissions(shown);
    assert Emissions([FinishedEmitted]) == 1 by {
      assert [FinishedEmitted][1..] == [];
    }
  }

  /** What the install dialog's handler shows for an exit status: on success, the
      launch of the entry's desktop launcher when it resolves, and otherwise (no
      launcher named, or none found) the "%s has been installed" confirmation naming
      the display name; nothing on failure. */
  function InstallReport(replacement: Entry, status: string, env: Env): (r: seq<Effect>)
    ensures status != ExitSuccess ==> r == []
    ensures status == ExitSuccess ==> |r| == 1
    ensures r != [] && r[0].DesktopLaunched? ==>
              replacement.desktopLauncher == Some(r[0].desktopId) && r[0].desktopId in env.desktopFiles
    ensures r != [] && !r[0].DesktopLaunched? ==> r[0] == InstalledNotice(replacement.DisplayName())
    ensures status == ExitSuccess && replacement.desktopLauncher.Some?
            && replacement.desktopLauncher.value in env.desktopFiles
            ==> r == [DesktopLaunched(replacement.desktopLauncher.value)]
  {
    if status != ExitSuccess then []
    else if replacement.desktopLauncher.Some? && DesktopAppInfo(env, replacement.desktopLauncher.value).Some?
    then [DesktopLaunched(replacement.desktopLauncher.value)]
    else [InstalledNotice(replacement.DisplayName())]
  }

  /** Which callbacks are connected: the object waits for the cache update, has failed to
      update, waits for the 200 ms timer, waits for the install, waits for the install
      dialog to close, or is done. */
  datatype Phase = Created | Updating | UpdateFailed | InstallScheduled | Installing | InstallFinished | Done

  class AptInstallation {
    const replacement: Entry
    /** `self.exit`, unset until the install transaction finishes. */
    var exit: Option<string>
    var effects: seq<Effect>
    var errorDialogs: seq<AptError>
    ghost var phase: Phase
    /** Whether a cache update preceded the install. */
    ghost var updated: bool
    /** What the install dialog's handler showed before emitting `finished`. */
    ghost var report: seq<Effect>

    /** The transactions requested up to and including the install. */
    ghost function Requested(): seq<Effect>
      reads this
      requires replacement.apt.Some?
    {
      (if updated then [CacheUpdateRequested] else []) + [InstallRequested(replacement.apt.value)]
    }

    ghost predicate Valid()
      reads this
    {
      && replacement.apt.Some?
      && (forall d :: d in errorDialogs ==> d.TransactionFailed?)
      && (phase == Created ==> effects == [] && exit.None? && !updated)
      && (phase == Updating || phase == UpdateFailed || phase == InstallScheduled ==>
            effects == [CacheUpdateRequested] && exit.None? && updated)
      && (phase == Installing ==> effects == Requested() && exit.None?)
      && (phase == InstallFinished ==> effects == Requested() && exit.Some?)
      && (phase == Done ==>
            && exit.Some? && effects == Requested() + report + [FinishedEmitted]
            && |report| == (if exit.value == ExitSuccess then 1 else 0))
      && Emissions(effects) == (if phase == Done then 1 else 0)
    }

    /** `__init__`: an installation is only created for an entry with an apt package. */
    constructor (replacement: Entry)
      requires replacement.apt.Some?
      ensures Valid() && this.replacement == replacement && phase == Created
      ensures exit.None? && effects == [] && errorDialogs == []
    {
      this.replacement := replacement;
      exit := None;
      effects := [];
      errorDialogs := [];
      phase := Created;
      updated := false;
      report := [];
    }

    /** `run`: update the cache first exactly when the freshly opened cache does not
      know the package, otherwise install straight away. */
    method Run(aptCache: map<string, bool>)
      requires Valid() && phase == Created
      modifies this
      ensures Valid() && exit == old(exit) && errorDialogs == old(errorDialogs)
      ensures replacement.apt.value !in aptCache ==>
                phase == Updating && effects == [CacheUpdateRequested]
      ensures replacement.apt.value in aptCache ==>
                phase == Installing && effects == [InstallRequested(replacement.apt.value)]
    {
      if replacement.apt.value !in aptCache {
        DoUpdate();
      } else {
        DoInstall();
      }
    }

    /** `do_update`: request a cache update and wait for it. */
    method DoUpdate()
      requires Valid() && phase == Created
      modifies this
      ensures Valid() && phase == Updating && updated
      ensures effects == old(effects) + [CacheUpdateRequested]
      ensures exit == old(exit) && errorDialogs == old(errorDialogs)
    {
      effects := effects + [CacheUpdateRequested];
      updated := true;
      phase := Updating;
    }

    /** `on_finished_update`: only a successful update schedules the install (the timer
      calls `do_install` once, as it returns nothing); any other exit ends the attempt
      with nothing further requested or emitted. */
    method OnFinishedUpdate(status: string)
      requires Valid() && phase == Updating
      modifies this
      ensures Valid() && phase == (if status == ExitSuccess then InstallScheduled else UpdateFailed)
      ensures effects == old(effects) && exit == old(exit) && errorDialogs == old(errorDialogs)
    {
      if status == ExitSuccess {
        phase := InstallScheduled;
      } else {
        phase := UpdateFailed;
      }
    }

    /** `do_install`: request the install of the package and wait for it, called from
      `run` or from the timer after a successful update. */
    method DoInstall()
      requires Valid() && (phase == Created || phase == InstallScheduled)
      modifies this
      ensures Valid() && phase == Installing && updated == old(updated)
      ensures effects == old(effects) + [InstallRequested(replacement.apt.value)]
      ensures exit == old(exit) && errorDialogs == old(errorDialogs)
    {
      effects := effects + [InstallRequested(replacement.apt.value)];
      NoEmissions(effects);
      phase := Installing;
    }

    /** `on_finished_install`: record the exit status. */
    method OnFinishedInstall(status: string)
      requires Valid() && phase == Installing
      modifies this
      ensures Valid() && phase == InstallFinished && exit == Some(status)
      ensures effects == old(effects) && errorDialogs == old(errorDialogs)
    {
      exit := Some(status);
      phase := InstallFinished;
    }

    /** `on_install_dialog_finished`: show the report for the recorded exit status, then
      emit `finished`: the object's only emission, made once. */
    method OnInstallDialogFinished(env: Env)
      requires Valid() && phase == InstallFinished
      modifies this
      ensures Valid() && phase == Done && exit == old(exit) && errorDialogs == old(errorDialogs)
      ensures effects == old(effects) + InstallReport(replacement, exit.value, env) + [FinishedEmitted]
      ensures Emissions(old(effects)) == 0 && Emissions(effects) == 1
    {
      var shown: seq<Effect> := [];
      if exit.value == ExitSuccess {
        var launcher: Option<string> := None;
        if replacement.desktopLauncher.Some? {
          launcher := DesktopAppInfo(env, replacement.desktopLauncher.value);
        }
        if launcher.Some? {
          shown := [DesktopLaunched(launcher.value)];
        } else {
          shown := [InstalledNotice(replacement.DisplayName())];
        }
      }
      assert shown == InstallReport(replacement, exit.value, env);
      ghost var before := effects;
      assert before == Requested();
      EmissionsAfterReport(before, shown);
      NoEmissions(before);
      effects := effects + shown + [FinishedEmitted];
      report := shown;
      phase := Done;
      assert Requested() == before;
      assert effects == Requested() + report + [FinishedEmitted];
      assert Emissions(effects) == 1;
    }

    /** `on_error`: show the classified error, if any; nothing else changes. */
    method OnError(error: AptError)
      requires Valid()
      modifies this`errorDialogs
      ensures Valid()
      ensures errorDialogs == old(errorDialogs) + ErrorDialogsFor(error)
    {
      if error.NotAuthorizedError? {
        return;
      }
      var shown := error;
      if !error.TransactionFailed? {
        shown := TransactionFailed(ErrorUnknown, error.text);
      }
      errorDialogs := errorDialogs + [shown];
    }
  }

  /** How an aptdaemon transaction started by a progress dialog ends: either starting it
      fails and the dialog calls its error handler (and the transaction never reports
      finishing), or it runs and finishes with an exit status. */
  datatype Transaction = StartFailed(error: AptError) | Completed(status: string)

  /** The effects of one install attempt: the cache update when the cache does not know
      the package; the install when no update was needed or the update succeeded; and,
      when the install transaction finishes, the report and `finished`. */
  function AttemptEffects(replacement: Entry, aptCache: map<string, bool>,
                          update: Transaction, install: Transaction, env: Env): (effects: seq<Effect>)
    requires replacement.apt.Some?
    ensures 1 <= |effects| <= 4
    ensures effects[0] == (if replacement.apt.value in aptCache then InstallRequested(replacement.apt.value)
                           else CacheUpdateRequested)
    ensures effects[|effects| - 1] == FinishedEmitted <==>
              InstallRuns(replacement.apt.value, aptCache, update) && install.Completed?
  {
    var package := replacement.apt.value;
    var updating := package !in aptCache;
    (if updating then [CacheUpdateRequested] else [])
    + (if !InstallRuns(package, aptCache, update) then []
       else [InstallRequested(package)]
            + (match install
               case StartFailed(_) => []
               case Completed(status) => InstallReport(replacement, status, env) + [FinishedEmitted]))
  }

  /** The error dialogs of one install attempt: those of the transaction that failed to
      start, if any. */
  function AttemptErrorDialogs(replacement: Entry, aptCache: map<string, bool>,
                               update: Transaction, install: Transaction): (ds: seq<AptError>)
    requires replacement.apt.Some?
    ensures replacement.apt.value !in aptCache && update.StartFailed? ==>
              ds == ErrorDialogsFor(update.error)
    ensures InstallRuns(replacement.apt.value, aptCache, update) && install.StartFailed? ==>
              ds == ErrorDialogsFor(install.error)
    ensures !(replacement.apt.value !in aptCache && update.StartFailed?)
            && !(InstallRuns(replacement.apt.value, aptCache, update) && install.StartFailed?)
            ==> ds == []
    ensures |ds| <= 1
    ensures update.Completed? && install.Completed? ==> ds == []
  {
    var package := replacement.apt.value;
    if package !in aptCache && update.StartFailed? then ErrorDialogsFor(update.error)
    else if InstallRuns(package, aptCache, update) && install.StartFailed?
    then ErrorDialogsFor(install.error)
    else []
  }

  /** One install attempt, with the callbacks delivered in the order the main loop
      delivers them: `run`, then the update's outcome, the timer, the install's
      outcome and the closing of its dialog. */
  method RunInstallation(replacement: Entry, aptCache: map<string, bool>,
                         update: Transaction, install: Transaction, env: Env)
    returns (effects: seq<Effect>, errorDialogs: seq<AptError>)
    requires replacement.apt.Some?
    ensures effects == AttemptEffects(replacement, aptCache, update, install, env)
    ensures errorDialogs == AttemptErrorDialogs(replacement, aptCache, update, install)
  {
    AttemptShape(replacement, aptCache, update, install, env);
    var job := new AptInstallation(replacement);
    var package := replacement.apt.value;
    job.Run(aptCache);
    if package !in aptCache {
      match update
      case StartFailed(e) =>
        job.OnError(e);
        return job.effects, job.errorDialogs;
      case Completed(status) =>
        job.OnFinishedUpdate(status);
        if status != ExitSuccess {
          return job.effects, job.errorDialogs;
        }
        job.DoInstall();
    }
    ghost var requested := job.effects;
    assert requested == (if package !in aptCache then [CacheUpdateRequested] else []) + [InstallRequested(package)];
    assert job.errorDialogs == [];
    match install {
      case StartFailed(e) =>
        job.OnError(e);
      case Completed(status) =>
        job.OnFinishedInstall(status);
        job.OnInstallDialogFinished(env);
    }
    return job.effects, job.errorDialogs;
  }

  /** The install is requested in an attempt: the cache knew the package, or the cache
      update succeeded. */
  predicate InstallRuns(package: string, aptCache: map<string, bool>, update: Transaction)
  {
    package in aptCache || update == Completed(ExitSuccess)
  }

  /** The three shapes an attempt's effects take. */
  lemma AttemptShape(replacement: Entry, aptCache: map<string, bool>,
                     update: Transaction, install: Transaction, env: Env)
    requires replacement.apt.Some?
    ensures var effects := AttemptEffects(replacement, aptCache, update, install, env);
            var package := replacement.apt.value;
            var head: seq<Effect> := if package !in aptCache then [CacheUpdateRequested] else [];
            && (!InstallRuns(package, aptCache, update) ==> effects == [CacheUpdateRequested])
            && (InstallRuns(package, aptCache, update) && install.StartFailed? ==>
                  effects == head + [InstallRequested(package)])
            && (InstallRuns(package, aptCache, update) && install.Completed? ==>
                  effects == head + [InstallRequested(package)]
                             + InstallReport(replacement, install.status, env) + [FinishedEmitted])
  {
  }

  /** The cache is updated exactly when it does not know the package, and the install is
      requested exactly when no update was needed or the update succeeded. */
  lemma AttemptRequests(replacement: Entry, aptCache: map<string, bool>,
                        update: Transaction, install: Transaction, env: Env)
    requires replacement.apt.Some?
    ensures var effects := AttemptEffects(replacement, aptCache, update, install, env);
            var package := replacement.apt.value;
            && (CacheUpdateRequested in effects <==> package !in aptCache)
            && (InstallRequested(package) in effects <==> InstallRuns(package, aptCache, update))
  {
    AttemptShape(replacement, aptCache, update, install, env);
    var effects := AttemptEffects(replacement, aptCache, update, install, env);
    var package := replacement.apt.value;
    if package in aptCache {
      assert effects[0] == InstallRequested(package);
      assert forall i :: 0 <= i < |effects| ==> effects[i] != CacheUpdateRequested;
    } else if update != Completed(ExitSuccess) {
      assert effects == [CacheUpdateRequested];
    } else {
      assert effects[0] == CacheUpdateRequested && effects[1] == InstallRequested(package);
    }
  }

  /** `finished` is emitted at most once, as the last effect, and exactly when the install
      was requested and its transaction finished. */
  lemma AttemptFinishes(replacement: Entry, aptCache: map<string, bool>,
                        update: Transaction, install: Transaction, env: Env)
    requires replacement.apt.Some?
    ensures var effects := AttemptEffects(replacement, aptCache, update, install, env);
            && Emissions(effects) <= 1
            && (Emissions(effects) == 1 <==> InstallRuns(replacement.apt.value, aptCache, update) && install.Completed?)
            && (Emissions(effects) == 1 ==> effects[|effects| - 1] == FinishedEmitted)
  {
    AttemptShape(replacement, aptCache, update, install, env);
    var effects := AttemptEffects(replacement, aptCache, update, install, env);
    var package := replacement.apt.value;
    var head: seq<Effect> := if package !in aptCache then [CacheUpdateRequested] else [];
    var requested := head + [InstallRequested(package)];
    if !InstallRuns(package, aptCache, update) {
      NoEmissions([CacheUpdateRequested]);
    } else if install.StartFailed? {
      NoEmissions(requested);
    } else {
      var report := InstallReport(replacement, install.status, env);
      assert FinishedEmitted !in report;
      EmissionsAfterReport(requested, report);
      NoEmissions(requested);
    }
  }

  /** The effect before `finished` is a launch or a confirmation after a successful
      install, and the install request itself after a failed one. */
  lemma AttemptReport(replacement: Entry, aptCache: map<string, bool>,
                      update: Transaction, install: Transaction, env: Env)
    requires replacement.apt.Some?
    requires InstallRuns(replacement.apt.value, aptCache, update) && install.Completed?
    ensures var effects := AttemptEffects(replacement, aptCache, update, install, env);
            && |effects| >= 2
            && (install.status == ExitSuccess ==>
                  effects[|effects| - 2].DesktopLaunched?
                  || effects[|effects| - 2] == InstalledNotice(replacement.DisplayName()))
            && (install.status != ExitSuccess ==>
                  effects[|effects| - 2] == InstallRequested(replacement.apt.value))
  {
    AttemptShape(replacement, aptCache, update, install, env);
  }

  /** The error dialogs of an attempt all show a transaction failure, at most one of
      them, and none when every transaction that ran did start. */
  lemma AttemptErrorsShape(replacement: Entry, aptCache: map<string, bool>,
                           update: Transaction, install: Transaction)
    requires replacement.apt.Some?
    ensures var ds := AttemptErrorDialogs(replacement, aptCache, update, install);
            && |ds| <= 1
            && (forall d :: d in ds ==> d.TransactionFailed?)
            && (update.Completed? && install.Completed? ==> ds == [])
  {
  }

  /** A cache that does not know the package, then a successful refresh and install: the
      update, the install, the launch or confirmation, and `finished`, in that order. */
  lemma RefreshThenInstall(replacement: Entry, env: Env)
    requires replacement.apt.Some?
    ensures var effects := AttemptEffects(replacement, map[], Completed(ExitSuccess), Completed(ExitSuccess), env);
            && |effects| == 4
            && effects[0] == CacheUpdateRequested
            && effects[1] == InstallRequested(replacement.apt.value)
            && (effects[2].DesktopLaunched? || effects[2] == InstalledNotice(replacement.DisplayName()))
            && effects[3] == FinishedEmitted
  {
    AttemptShape(replacement, map[], Completed(ExitSuccess), Completed(ExitSuccess), env);
  }

  /** A declined authorisation for the install shows no error and never emits
      `finished`. */
  lemma DeclinedInstallAuthorisation(replacement: Entry, aptCache: map<string, bool>,
                                     update: Transaction, env: Env)
    requires replacement.apt.Some? && InstallRuns(replacement.apt.value, aptCache, update)
    ensures AttemptErrorDialogs(replacement, aptCache, update, StartFailed(NotAuthorizedError)) == []
    ensures Emissions(AttemptEffects(replacement, aptCache, update, StartFailed(NotAuthorizedError), env)) == 0
  {
    AttemptFinishes(replacement, aptCache, update, StartFailed(NotAuthorizedError), env);
  }
}
