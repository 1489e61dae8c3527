/** What `ExecGuardApplication.__init__` works out about the replacement it found: which
    installed form of it exists (Flatpak reference, apt package, desktop launcher) and
    whether it counts as installed. The backends it asks are a snapshot `Env`. */
module Availability {
  import opened Wrappers
  import opened Catalog

  /** The two Flatpak installations, asked in this order. */
  datatype Scope = UserInstallation | SystemInstallation

  /** An installed Flatpak application, and the installation it was found in. */
  datatype InstalledRef = InstalledRef(appId: string, scope: Scope)

  /** The answers of the system the guard runs on: the Flatpak applications installed per
      user and system-wide, the apt cache (package name to whether it is installed), the
      desktop files `Gio.DesktopAppInfo` can open, and the system Flatpak remotes with
      their default branch. */
  datatype Env = Env(
    userFlatpaks: set<string>,
    systemFlatpaks: set<string>,
    aptCache: map<string, bool>,
    desktopFiles: set<string>,
    flatpakRemotes: map<string, Option<string>>)

  /** `get_installed_flatpak_ref`: the user installation is asked first; a lookup that
      fails (the application is not installed there) falls through to the system
      installation, whose failure gives no reference. */
  function GetInstalledFlatpakRef(env: Env, appId: string): (r: Option<InstalledRef>)
    ensures r.Some? <==> appId in env.userFlatpaks || appId in env.systemFlatpaks
    ensures r.Some? ==> r.value.appId == appId
    ensures appId in env.userFlatpaks ==> r == Some(InstalledRef(appId, UserInstallation))
    ensures appId !in env.userFlatpaks && appId in env.systemFlatpaks ==>
              r == Some(InstalledRef(appId, SystemInstallation))
  {
    if appId in env.userFlatpaks then Some(InstalledRef(appId, UserInstallation))
    else if appId in env.systemFlatpaks then Some(InstalledRef(appId, SystemInstallation))
    else None
  }

  /** `is_apt_package_installed`: the cache knows the package and marks it installed. */
  function IsAptPackageInstalled(cache: map<string, bool>, package: string): (b: bool)
    ensures b ==> package in cache
    ensures package in cache ==> b == cache[package]
  {
    package in cache && cache[package]
  }

  /** `Gio.DesktopAppInfo.new(id)`, whose failure for an unknown id gives no launcher. */
  function DesktopAppInfo(env: Env, desktopId: string): (r: Option<string>)
    ensures r.Some? <==> desktopId in env.desktopFiles
    ensures r.Some? ==> r.value == desktopId
  {
    if desktopId in env.desktopFiles then Some(desktopId) else None
  }

  /** Python's truth value of a string. */
  predicate Truthy(s: string)
  {
    |s| > 0
  }

  /** The fields `__init__` fills after resolving the replacement. `installed` stands for
      the truth value of `_replacement_installed`. */
  datatype Availability = Availability(
    flatpakRef: Option<InstalledRef>,
    aptPackage: Option<string>,
    desktopLauncher: Option<string>,
    installed: bool)

  /** The OR of line 84: a replacement exists, and its desktop launcher resolved, or it
      has a Flatpak id with an installed reference, or its (non-empty) apt package is
      installed, or it has a web link. */
  predicate InstalledAgrees(replacement: Option<Entry>, av: Availability)
  {
    av.installed <==>
      replacement.Some? &&
      (|| av.desktopLauncher.Some?
       || (replacement.value.flatpak.Some? && av.flatpakRef.Some?)
       || (av.aptPackage.Some? && Truthy(av.aptPackage.value))
       || replacement.value.webLink.Some?)
  }

  /** The state `__init__` leaves, field by field, in terms of the backends. */
  predicate ProbedFrom(av: Availability, replacement: Option<Entry>, env: Env)
  {
    && av.flatpakRef ==
         (if replacement.Some? && replacement.value.flatpak.Some?
          then GetInstalledFlatpakRef(env, replacement.value.flatpak.value.id) else None)
    && av.aptPackage ==
         (if replacement.Some? && replacement.value.apt.Some?
             && IsAptPackageInstalled(env.aptCache, replacement.value.apt.value)
          then replacement.value.apt else None)
    && av.desktopLauncher ==
         (if replacement.Some? && replacement.value.desktopLauncher.Some?
          then DesktopAppInfo(env, replacement.value.desktopLauncher.value) else None)
    && InstalledAgrees(replacement, av)
  }

  /** Lines 69-84 of `__init__`: each field starts empty and is filled when the
      replacement has the key and the backend answers. */
  method ProbeAvailability(replacement: Option<Entry>, env: Env) returns (av: Availability)
    ensures ProbedFrom(av, replacement, env)
  {
    var flatpakRef: Option<InstalledRef> := None;
    if replacement.Some? && replacement.value.flatpak.Some? {
      flatpakRef := GetInstalledFlatpakRef(env, replacement.value.flatpak.value.id);
    }

    var aptPackage: Option<string> := None;
    if replacement.Some? && replacement.value.apt.Some?
       && IsAptPackageInstalled(env.aptCache, replacement.value.apt.value)
    {
      aptPackage := replacement.value.apt;
    }

    var desktopLauncher: Option<string> := None;
    if replacement.Some? && replacement.value.desktopLauncher.Some? {
      desktopLauncher := DesktopAppInfo(env, replacement.value.desktopLauncher.value);
    }

    var installed := false;
    if replacement.Some? {
      installed := desktopLauncher.Some?
                   || (replacement.value.flatpak.Some? && flatpakRef.Some?)
                   || (aptPackage.Some? && Truthy(aptPackage.value))
                   || replacement.value.webLink.Some?;
    }
    av := Availability(flatpakRef, aptPackage, desktopLauncher, installed);
  }

  /** The replacement counts as installed exactly when a replacement exists and its
      desktop file is present, or its Flatpak id is installed for the user or for the
      system, or its non-empty apt package is installed, or it has a web link. */
  lemma InstalledIff(av: Availability, replacement: Option<Entry>, env: Env)
    requires ProbedFrom(av, replacement, env)
    ensures av.installed <==>
      replacement.Some? &&
      var e := replacement.value;
      (|| (e.desktopLauncher.Some? && e.desktopLauncher.value in env.desktopFiles)
       || (e.flatpak.Some? && (e.flatpak.value.id in env.userFlatpaks || e.flatpak.value.id in env.systemFlatpaks))
       || (e.apt.Some? && Truthy(e.apt.value) && e.apt.value in env.aptCache && env.aptCache[e.apt.value])
       || e.webLink.Some?)
  {
  }

  /** A Flatpak application installed in both places is reported from the user
      installation. */
  lemma UserInstallationFirst(av: Availability, e: Entry, env: Env)
    requires ProbedFrom(av, Some(e), env)
    requires e.flatpak.Some? && e.flatpak.value.id in env.userFlatpaks
    ensures av.flatpakRef == Some(InstalledRef(e.flatpak.value.id, UserInstallation))
  {
  }

  /** The application object after `__init__`: the executable's filename, the
      replacement found for it, and what is known about that replacement. */
  datatype Guard = Guard(filename: string, replacement: Option<Entry>, availability: Availability)

  /** `ExecGuardApplication.__init__` given the loaded catalog (empty when the file is
      missing or unreadable). The constructor raises when the scan meets a pattern that
      does not compile; otherwise it holds the replacement found and the probe's fields. */
  method Setup(engine: RegexEngine, filename: string, platform: string, appDb: seq<Entry>, env: Env)
    returns (g: Option<Guard>)
    ensures g.None? <==> Resolve(engine, filename, platform, appDb).BadPattern?
    ensures g.Some? ==>
              && g.value.filename == filename
              && g.value.replacement ==
                   (var r := Resolve(engine, filename, platform, appDb);
                    if r.Found? then Some(r.entry) else None)
              && ProbedFrom(g.value.availability, g.value.replacement, env)
  {
    var resolution := FindReplacement(engine, filename, platform, appDb);
    if resolution.BadPattern? {
      return None;
    }
    var replacement := if resolution.Found? then Some(resolution.entry) else None;
    var av := ProbeAvailability(replacement, env);
    return Some(Guard(filename, replacement, av));
  }
}
