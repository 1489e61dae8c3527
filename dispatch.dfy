/** What the Launch and Install buttons do: `_launch_peferred_app` picks one way of
    starting the replacement, `install_replacement_app` picks between an apt
    transaction and GNOME Software, and `get_software_app_id` names the application
    for GNOME Software. Only the choice is modelled; the launches themselves are
    calls into GLib, Flatpak and Steam. */
module Dispatch {
  import opened Wrappers
  import opened Catalog
  import opened Availability
  import Presentation

  /** The one launch `_launch_peferred_app` performs, if any. */
  datatype LaunchAction =
    | SteamLaunch(argv: seq<string>)     // `launch_steam_app`: the spawned command line
    | DesktopLaunch(desktopId: string)   // `launch_desktop_app` on the resolved launcher
    | LinkLaunch(href: string)           // `launch_link`
    | FlatpakLaunch(desktopId: string)   // `launch_flatpak_app`
    | NoLaunch

  /** The desktop file id of a Flatpak application. */
  function FlatpakDesktopId(appId: string): (d: string)
    ensures |d| == |appId| + 8 && d[..|appId|] == appId && d[|appId|..] == ".desktop"
  {
    appId + ".desktop"
  }

  /** `_launch_peferred_app`: Steam, then the desktop launcher resolved at start-up,
      then the web link, then the Flatpak application; the first that applies is
      launched and nothing else. */
  function PreferredLaunch(e: Entry, av: Availability): (l: LaunchAction)
    ensures l.SteamLaunch? <==> e.steam.Some?
    ensures e.steam.Some? ==> l.argv == ["steam", "-applaunch", e.steam.value]
    ensures l.FlatpakLaunch? ==> e.flatpak.Some? && l.desktopId == e.flatpak.value.id + ".desktop"
    ensures l == NoLaunch <==>
              e.steam.None? && av.desktopLauncher.None? && e.webLink.None? && e.flatpak.None?
  {
    if e.steam.Some? then SteamLaunch(["steam", "-applaunch", e.steam.value])
    else if av.desktopLauncher.Some? then DesktopLaunch(av.desktopLauncher.value)
    else if e.webLink.Some? then LinkLaunch(e.webLink.value)
    else if e.flatpak.Some? then FlatpakLaunch(FlatpakDesktopId(e.flatpak.value.id))
    else NoLaunch
  }

  // ---------------------------------------------------------------------------
  // The launch order as an explicit priority list

  /** Each mechanism in priority order, as the launch it would make or `NoLaunch` when
      it does not apply. */
  function Candidates(e: Entry, av: Availability): (cs: seq<LaunchAction>)
    ensures |cs| == 4
  {
    [ if e.steam.Some? then SteamLaunch(["steam", "-applaunch", e.steam.value]) else NoLaunch,
      if av.desktopLauncher.Some? then DesktopLaunch(av.desktopLauncher.value) else NoLaunch,
      if e.webLink.Some? then LinkLaunch(e.webLink.value) else NoLaunch,
      if e.flatpak.Some? then FlatpakLaunch(FlatpakDesktopId(e.flatpak.value.id)) else NoLaunch ]
  }

  /** The first candidate that applies. */
  function FirstApplicable(cs: seq<LaunchAction>): LaunchAction
  {
    if cs == [] then NoLaunch
    else if cs[0] != NoLaunch then cs[0]
    else FirstApplicable(cs[1..])
  }

  /** `FirstApplicable` returns the earliest candidate that applies, and `NoLaunch`
      exactly when none does. */
  lemma {:induction false} FirstApplicableSpec(cs: seq<LaunchAction>)
    ensures FirstApplicable(cs) == NoLaunch <==> forall i :: 0 <= i < |cs| ==> cs[i] == NoLaunch
    ensures FirstApplicable(cs) != NoLaunch ==>
              exists i :: 0 <= i < |cs| && cs[i] == FirstApplicable(cs)
                          && forall j :: 0 <= j < i ==> cs[j] == NoLaunch
  {
    if cs != [] && cs[0] == NoLaunch {
      FirstApplicableSpec(cs[1..]);
      if FirstApplicable(cs) != NoLaunch {
        var i :| 0 <= i < |cs[1..]| && cs[1..][i] == FirstApplicable(cs[1..])
                 && forall j :: 0 <= j < i ==> cs[1..][j] == NoLaunch;
        assert cs[i + 1] == FirstApplicable(cs);
        assert forall j :: 0 <= j < i + 1 ==> cs[j] == NoLaunch by {
          forall j | 0 <= j < i + 1 ensures cs[j] == NoLaunch {
            if j > 0 { assert cs[j] == cs[1..][j - 1]; }
          }
        }
      }
      if forall i :: 0 <= i < |cs[1..]| ==> cs[1..][i] == NoLaunch {
        forall i | 0 <= i < |cs| ensures cs[i] == NoLaunch {
          if i > 0 { assert cs[i] == cs[1..][i - 1]; }
        }
      }
    } else if cs != [] {
      assert cs[0] == FirstApplicable(cs);
    }
  }

  /** The nested tests of `_launch_peferred_app` are the priority list
      Steam > desktop launcher > web link > Flatpak, taken first-applicable. */
  lemma PreferredLaunchIsFirstApplicable(e: Entry, av: Availability)
    ensures PreferredLaunch(e, av) == FirstApplicable(Candidates(e, av))
  {
    var cs := Candidates(e, av);
    var c1, c2, c3 := cs[1..], cs[1..][1..], cs[1..][1..][1..];
    assert c3[1..] == [];
    assert FirstApplicable(c3) == (if cs[3] != NoLaunch then cs[3] else NoLaunch);
    assert FirstApplicable(c2) == (if cs[2] != NoLaunch then cs[2] else FirstApplicable(c3));
    assert FirstApplicable(c1) == (if cs[1] != NoLaunch then cs[1] else FirstApplicable(c2));
  }

  /** The one case in which the Launch button starts nothing: the entry names a desktop
      launcher that did not resolve, and counts as installed only through its apt
      package, with no Steam id, web link or Flatpak to fall back on. */
  lemma LaunchButtonWithoutLaunch(g: Guard)
    requires g.replacement.Some? && InstalledAgrees(g.replacement, g.availability)
    requires Presentation.ButtonOf(g).LaunchButton?
    ensures PreferredLaunch(g.replacement.value, g.availability) == NoLaunch <==>
              var e := g.replacement.value;
              && e.steam.None? && e.webLink.None? && e.flatpak.None?
              && e.desktopLauncher.Some? && g.availability.desktopLauncher.None?
              && g.availability.aptPackage.Some?
  {
  }

  // ---------------------------------------------------------------------------
  // Installing

  /** Where the Install button sends the user. */
  datatype InstallRoute = AptTransaction(package: string) | SoftwareDetails(appId: string)

  /** The id GNOME Software opens for a Flatpak application from a known remote. */
  function SoftwareRef(remote: string, appId: string, branch: string): string
  {
    "system/flatpak/" + remote + "/desktop/" + FlatpakDesktopId(appId) + "/" + branch
  }

  /** The default branch of the entry's Flatpak remote, when the remote exists and has a
      non-empty one. */
  function RemoteBranch(f: FlatpakSpec, env: Env): (b: Option<string>)
    ensures b.Some? <==>
              f.remote.Some? && f.remote.value in env.flatpakRemotes
              && env.flatpakRemotes[f.remote.value].Some?
              && Truthy(env.flatpakRemotes[f.remote.value].value)
    ensures b.Some? ==> b.value == env.flatpakRemotes[f.remote.value].value && Truthy(b.value)
  {
    if f.remote.Some? && f.remote.value in env.flatpakRemotes
       && env.flatpakRemotes[f.remote.value].Some? && Truthy(env.flatpakRemotes[f.remote.value].value)
    then env.flatpakRemotes[f.remote.value]
    else None
  }

  /** What `get_software_app_id` returns, in its order of preference: the full Flatpak
      reference, the Flatpak id, the AppStream id, the display name. */
  function SoftwareAppId(e: Entry, env: Env): (appId: string)
    ensures e.flatpak.Some? && e.flatpak.value.remote.Some?
            && e.flatpak.value.remote.value in env.flatpakRemotes
            && env.flatpakRemotes[e.flatpak.value.remote.value].Some?
            && Truthy(env.flatpakRemotes[e.flatpak.value.remote.value].value)
            ==> appId == SoftwareRef(e.flatpak.value.remote.value, e.flatpak.value.id,
                                     env.flatpakRemotes[e.flatpak.value.remote.value].value)
    ensures e.flatpak.Some? && RemoteBranch(e.flatpak.value, env).None? ==> appId == e.flatpak.value.id
    ensures e.flatpak.None? && e.appstream.Some? ==> appId == e.appstream.value
    ensures e.flatpak.None? && e.appstream.None? ==> appId == e.DisplayName()
  {
    if e.flatpak.Some? then
      var b := RemoteBranch(e.flatpak.value, env);
      if b.Some? then SoftwareRef(e.flatpak.value.remote.value, e.flatpak.value.id, b.value)
      else e.flatpak.value.id
    else if e.appstream.Some? then e.appstream.value
    else e.DisplayName()
  }

  /** `get_software_app_id`: `app_id` starts as the Flatpak id, the AppStream id or the
      display name, and a Flatpak remote with a default branch returns the full
      reference instead. A remote the system installation does not know is passed
      over. */
  method GetSoftwareAppId(e: Entry, env: Env) returns (appId: string)
    ensures appId == SoftwareAppId(e, env)
  {
    if e.flatpak.Some? {
      appId := e.flatpak.value.id;
      if e.flatpak.value.remote.Some? {
        var remote := e.flatpak.value.remote.value;
        var flatpakRemote: Option<Option<string>> := None;
        if remote in env.flatpakRemotes {
          flatpakRemote := Some(env.flatpakRemotes[remote]);
        }
        if flatpakRemote.Some? {
          var defaultBranch := flatpakRemote.value;
          if defaultBranch.Some? && Truthy(defaultBranch.value) {
            return SoftwareRef(remote, appId, defaultBranch.value);
          }
        }
      }
    } else if e.appstream.Some? {
      appId := e.appstream.value;
    } else {
      appId := e.DisplayName();
    }
  }

  /** `install_replacement_app`: an entry with an apt package is installed here through
      an `AptInstallation`; any other is handed to GNOME Software's details page. */
  method InstallReplacementApp(e: Entry, env: Env) returns (route: InstallRoute)
    ensures e.apt.Some? ==> route == AptTransaction(e.apt.value)
    ensures e.apt.None? ==> route == SoftwareDetails(SoftwareAppId(e, env))
  {
    if e.apt.Some? {
      route := AptTransaction(e.apt.value);
    } else {
      var appId := GetSoftwareAppId(e, env);
      route := SoftwareDetails(appId);
    }
  }

  // ---------------------------------------------------------------------------
  // The reference id read back

  /** Splitting a string at every occurrence of `sep`. */
  function Split(s: string, sep: char): (parts: seq<string>)
    ensures |parts| >= 1
    decreases |s|
  {
    if |s| == 0 then [""]
    else
      var rest := Split(s[1..], sep);
      if s[0] == sep then [""] + rest
      else [[s[0]] + rest[0]] + rest[1..]
  }

  lemma {:induction false} SplitAtSeparator(a: string, b: string, sep: char)
    requires sep !in a
    ensures Split(a + [sep] + b, sep) == [a] + Split(b, sep)
    decreases |a|
  {
    if |a| == 0 {
      assert a + [sep] + b == [sep] + b;
      assert ([sep] + b)[1..] == b;
    } else {
      SplitAtSeparator(a[1..], b, sep);
      assert (a + [sep] + b)[1..] == a[1..] + [sep] + b;
      assert [a[0]] + a[1..] == a;
    }
  }

  lemma {:induction false} SplitWithoutSeparator(a: string, sep: char)
    requires sep !in a
    ensures Split(a, sep) == [a]
    decreases |a|
  {
    if |a| > 0 {
      SplitWithoutSeparator(a[1..], sep);
      assert [a[0]] + a[1..] == a;
    }
  }

  /** The part of the reference after the remote's prefix splits into its four fields. */
  lemma RemoteFields(remote: string, desktop: string, branch: string)
    requires '/' !in remote && '/' !in desktop && '/' !in branch
    ensures Split(remote + "/" + ("desktop" + "/" + (desktop + "/" + branch)), '/') ==
              [remote, "desktop", desktop, branch]
  {
    var s4 := desktop + "/" + branch;
    var s3 := "desktop" + "/" + s4;
    SplitWithoutSeparator(branch, '/');
    SplitAtSeparator(desktop, branch, '/');
    SplitAtSeparator("desktop", s4, '/');
    SplitAtSeparator(remote, s3, '/');
  }

  /** The reference handed to GNOME Software reads back as its six fields when the
      remote, the application id and the branch contain no '/'. */
  lemma SoftwareRefFields(remote: string, appId: string, branch: string)
    requires '/' !in remote && '/' !in appId && '/' !in branch
    ensures Split(SoftwareRef(remote, appId, branch), '/') ==
              ["system", "flatpak", remote, "desktop", appId + ".desktop", branch]
  {
    var desktop := FlatpakDesktopId(appId);
    assert '/' !in desktop;
    var s2 := remote + "/" + ("desktop" + "/" + (desktop + "/" + branch));
    var s1 := "flatpak" + "/" + s2;
    assert SoftwareRef(remote, appId, branch) == "system" + "/" + s1;
    RemoteFields(remote, desktop, branch);
    SplitAtSeparator("flatpak", s2, '/');
    SplitAtSeparator("system", s1, '/');
  }
}
