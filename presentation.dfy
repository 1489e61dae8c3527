/** What the guard's window says and offers: `_get_main_message`,
    `_get_app_alternative_message` and the single button `_get_buttons` adds. Messages
    are tagged values; their translated wording is not modelled. */
module Presentation {
  import opened Wrappers
  import opened Catalog
  import opened Availability
  import Text

  /** `MAX_EXEC_CHAR_LENGTH`. */
  const MaxExecCharLength: int := 12

  /** The headline of the window. */
  datatype MainMessage =
    | AreYouSure(shownFilename: string)    // "Are you sure you want to run %s?"
    | Custom(text: string)                 // the entry's own `mainMessage`
    | AvailableOnSteam(name: string)       // "%s is available on Steam"
    | AlreadyInstalled(name: string)       // "%s is already installed"
    | CanBeInstalled(name: string)         // "%s can be installed from Software"

  /** `_get_main_message`: no replacement, then the entry's override, then Steam, then
      installed or installable, each case winning over the ones after it. */
  function MainMessageOf(g: Guard): (m: MainMessage)
    ensures m.AreYouSure? <==> g.replacement.None?
    ensures m.AreYouSure? ==>
              m.shownFilename == Text.TruncateWithEllipses(g.filename, MaxExecCharLength * 4)
              && |m.shownFilename| <= MaxExecCharLength * 4 + 5
    ensures m.Custom? <==> g.replacement.Some? && g.replacement.value.mainMessage.Some?
    ensures m.Custom? ==> m.text == g.replacement.value.mainMessage.value
    ensures m.AvailableOnSteam? <==>
              g.replacement.Some? && g.replacement.value.mainMessage.None? && g.replacement.value.steam.Some?
    ensures m.AvailableOnSteam? ==> m.name == g.replacement.value.name
    ensures m.AlreadyInstalled? <==>
              g.replacement.Some? && g.replacement.value.mainMessage.None? && g.replacement.value.steam.None?
              && g.availability.installed
    ensures m.CanBeInstalled? <==>
              g.replacement.Some? && g.replacement.value.mainMessage.None? && g.replacement.value.steam.None?
              && !g.availability.installed
    ensures m.AlreadyInstalled? || m.CanBeInstalled? ==> m.name == g.replacement.value.DisplayName()
  {
    if g.replacement.None? then
      AreYouSure(Text.TruncateWithEllipses(g.filename, MaxExecCharLength * 4))
    else
      var e := g.replacement.value;
      if e.mainMessage.Some? then Custom(e.mainMessage.value)
      else if e.steam.Some? then AvailableOnSteam(e.name)
      else if g.availability.installed then AlreadyInstalled(e.DisplayName())
      else CanBeInstalled(e.DisplayName())
  }

  /** The headline shows exactly what line 140 computes for every filename except one
      exactly `MaxExecCharLength * 4 + 3` long, the one length where the two
      truncations differ. */
  lemma HeadlineAgreesWithCode(g: Guard)
    requires g.replacement.None? && |g.filename| != MaxExecCharLength * 4 + 3
    ensures MainMessageOf(g) ==
              AreYouSure(Text.TruncateWithEllipsesAsWritten(g.filename, MaxExecCharLength * 4))
  {
    Text.CorrectionOnlyAtGap(g.filename, MaxExecCharLength * 4);
  }

  /** At that length line 140 shows 50 characters with one of them silently dropped,
      where the headline shows the whole filename. */
  lemma HeadlineAtGap(g: Guard)
    requires g.replacement.None? && |g.filename| == MaxExecCharLength * 4 + 3
    ensures |Text.TruncateWithEllipsesAsWritten(g.filename, MaxExecCharLength * 4)| == 50
    ensures MainMessageOf(g).shownFilename == g.filename
  {
    Text.AsWrittenDropsCharacter(g.filename, MaxExecCharLength * 4);
  }

  /** "%s is an alternative to %s.": the alternative's name, then the entry's own. */
  datatype AlternativeNote = AlternativeTo(alternativeName: string, name: string)

  /** `_get_app_alternative_message`: only for a replacement with an `alternative`. */
  function AlternativeMessageOf(g: Guard): (n: Option<AlternativeNote>)
    ensures n.Some? <==> g.replacement.Some? && g.replacement.value.alternative.Some?
    ensures n.Some? ==>
              n.value.alternativeName == g.replacement.value.alternative.value
              && n.value.name == g.replacement.value.name
  {
    if g.replacement.Some? && g.replacement.value.alternative.Some? then
      Some(AlternativeTo(g.replacement.value.alternative.value, g.replacement.value.name))
    else None
  }

  /** The one button of the window, a stand-in for the handler it is connected to:
      Cancel and OK quit, Launch runs `launch_replacement_app`, Install runs
      `install_replacement_app`. */
  datatype Button = CancelButton | OkButton | LaunchButton(name: string) | InstallButton(name: string)

  /** The entry names something the Launch handler could start directly. */
  predicate HasLaunchTarget(e: Entry)
  {
    e.desktopLauncher.Some? || e.flatpak.Some? || e.webLink.Some?
  }

  /** `_get_buttons`: Cancel without a replacement; OK for a `noButton` entry or for an
      installed one with nothing to launch (a library such as a browser plug-in);
      otherwise Launch when installed and Install when not. */
  function ButtonOf(g: Guard): (b: Button)
    ensures b == CancelButton <==> g.replacement.None?
    ensures b == OkButton <==>
              g.replacement.Some?
              && (g.replacement.value.noButton
                  || (g.availability.installed && !HasLaunchTarget(g.replacement.value)))
    ensures b.LaunchButton? ==>
              g.availability.installed && b.name == g.replacement.value.DisplayName()
    ensures b.InstallButton? ==>
              !g.availability.installed && b.name == g.replacement.value.DisplayName()
  {
    if g.replacement.None? then CancelButton
    else
      var e := g.replacement.value;
      if e.noButton || (g.availability.installed && !HasLaunchTarget(e)) then OkButton
      else if g.availability.installed then LaunchButton(e.DisplayName())
      else InstallButton(e.DisplayName())
  }

  /** For an ordinary entry (no message override, no Steam, no `noButton`) the button
      and the headline agree: Launch goes with "already installed", Install with "can be
      installed", each with the same name; "can be installed" always offers Install. */
  lemma ButtonMatchesMessage(g: Guard)
    requires g.replacement.Some?
    requires g.replacement.value.mainMessage.None? && g.replacement.value.steam.None?
    requires !g.replacement.value.noButton
    ensures ButtonOf(g).LaunchButton? ==> MainMessageOf(g) == AlreadyInstalled(ButtonOf(g).name)
    ensures ButtonOf(g).InstallButton? ==> MainMessageOf(g) == CanBeInstalled(ButtonOf(g).name)
    ensures MainMessageOf(g).CanBeInstalled? ==> ButtonOf(g) == InstallButton(MainMessageOf(g).name)
    ensures MainMessageOf(g).AlreadyInstalled? ==>
              ButtonOf(g) == (if HasLaunchTarget(g.replacement.value)
                              then LaunchButton(MainMessageOf(g).name) else OkButton)
  {
  }

  /** Without a replacement the window asks whether to run the file, offers only Cancel
      and names no alternative. */
  lemma NoReplacementWindow(g: Guard)
    requires g.replacement.None?
    ensures MainMessageOf(g).AreYouSure? && ButtonOf(g) == CancelButton && AlternativeMessageOf(g).None?
  {
  }

  /** The example player found for its filename, with its apt package installed, is
      reported as installed; as the entry names no desktop launcher, Flatpak or link,
      the window offers OK rather than Launch. */
  lemma ExamplePlayerInstalledByApt(av: Availability, env: Env)
    requires ProbedFrom(av, Some(ExamplePlayer), env)
    requires env.aptCache == map["vlc" := true]
    ensures av.installed && av.aptPackage == Some("vlc")
    ensures MainMessageOf(Guard("vlc-3.0.exe", Some(ExamplePlayer), av)) == AlreadyInstalled("Example Player")
    ensures ButtonOf(Guard("vlc-3.0.exe", Some(ExamplePlayer), av)) == OkButton
  {
    assert IsAptPackageInstalled(env.aptCache, "vlc");
  }
}
