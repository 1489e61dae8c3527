# zorin-exec-guard, modelled in Dafny

Zorin OS runs `zorin-exec-guard` when the user opens a Windows or other foreign
executable. The guard looks the file name up in a catalog of replacements
(`app_db.json`). It then works out whether the replacement is already installed, as a
Flatpak, an apt package, a desktop launcher or a web link, and shows one window:

- a headline;
- an optional "X is an alternative to Y" note;
- a single button: Cancel, OK, Launch or Install.

Launch starts the replacement by the first mechanism that applies. Install hands the
application to GNOME Software, or installs its apt package through aptdaemon. The apt
install is done by the `AptInstallation` object, which can refresh the package cache
first and emits `finished` when it is done.

This project models the decision logic of `zorin_exec_guard/exec_guard.py` and proves
what that logic promises. It has seven modules, one file each:

| file | module | what it holds |
|---|---|---|
| `wrappers.dfy` | `Wrappers` | `Option` |
| `text.dfy` | `Text` | `title` and `truncate_with_ellipses`, with Python slicing modelled exactly, negative bounds included |
| `catalog.dfy` | `Catalog` | catalog entries; the regex engine as a parameter; `find_replacement` as a loop, proved against a recursive scan |
| `availability.dfy` | `Availability` | the backends as a snapshot value `Env`; the availability fields `__init__` fills step by step; `get_installed_flatpak_ref`; `is_apt_package_installed` |
| `presentation.dfy` | `Presentation` | the headline, the alternative note and the button |
| `dispatch.dfy` | `Dispatch` | `_launch_peferred_app`; `install_replacement_app`; `get_software_app_id` and its reference string |
| `apt_installation.dfy` | `AptInstall` | the `AptInstallation` class, one method per callback, and a driver that delivers the callbacks in main-loop order |

Messages are tagged values, not translated strings. A launch is the value that names
what would be started. The backends are inputs:

- the Flatpak user and system installations;
- the apt cache;
- the desktop files;
- the Flatpak remotes and their default branches;
- the outcomes of the aptdaemon transactions.

Four behaviours of the code are worth stating plainly, because the model keeps them:

- **Uncompilable pattern.** An entry whose pattern does not compile is not skipped:
  `re.compile` raises out of `find_replacement`, so the model's scan ends in
  `BadPattern` and `Setup` yields no guard.
- **Failed or declined transaction.** `finished` is emitted only by
  `on_install_dialog_finished`, so an update that fails, an update that never starts, or
  an install that never starts emits nothing (`AttemptFinishes`). As
  `install_replacement_app` hides the window (line 130) and quits only on `finished`
  (line 132), in those cases the guard keeps running with no window.
- **Failed install shows no error.** Both progress dialogs run with `show_error=False`
  (lines 312 and 328), so an install that finishes with a status other than
  `exit-success` shows no error dialog and no notice; only the error handler of a
  transaction that fails to start shows one (`AttemptErrorsShape`).
- **The example player installed by apt.** The entry names no desktop launcher, Flatpak
  or link, so the window offers OK rather than Launch (`ExamplePlayerInstalledByApt`).

The headline uses the corrected truncation described under "## Findings"; for every
filename length but one it shows what line 140 computes (`HeadlineAgreesWithCode`).

## Model

| member | source | states |
|---|---|---|
| Text.Title | zorin_exec_guard/exec_guard.py:40-41 | the result is the text between the big-bold opening and closing markup: 18 characters longer, with the text in the middle |
| Text.TitleInjective | zorin_exec_guard/exec_guard.py:40-41 | different messages give different titles |
| Text.SplitParts | zorin_exec_guard/exec_guard.py:44-45 | `text[0:-3]` is everything but the last three characters (or nothing), and `text[-3:len(text)]` is those last characters |
| Text.TruncateWithEllipsesAsWritten | zorin_exec_guard/exec_guard.py:43-47 | as written, the result is never more than the three ellipsis characters longer than the text |
| Text.AsWrittenShortTextUnchanged | zorin_exec_guard/exec_guard.py:43-47 | as written, a text at most `max + 2` long is returned unchanged, for any `max >= 0` |
| Text.AsWrittenKeepsTail | zorin_exec_guard/exec_guard.py:43-47 | as written, the result always ends with the last three characters of the text, for every `max` |
| Text.AsWrittenEllipsisCase | zorin_exec_guard/exec_guard.py:43-47 | as written, when `len(text) - 3 > max`, the result is the first `max - 1` characters, `...` and the last three: `max + 5` characters |
| Text.AsWrittenLengthBound | zorin_exec_guard/exec_guard.py:43-47 | as written, the result is at most `max + 5` long for every positive `max` |
| Text.AsWrittenDropsCharacter | zorin_exec_guard/exec_guard.py:43-47 | as written, a text exactly `max + 3` long loses the character at index `max - 1` and gets no ellipsis |
| Text.AsWrittenDropsCharacterExample | zorin_exec_guard/exec_guard.py:43-47 | as written, with `max` 1, "abcd" becomes "bcd" |
| Text.TruncateWithEllipses | zorin_exec_guard/exec_guard.py:43-47 | corrected: for positive `max`, a text at most `max + 3` long is returned whole, and a longer one is shown as its first `max - 1` characters, `...` and its last three, `max + 5` in all |
| Text.CorrectionOnlyAtGap | zorin_exec_guard/exec_guard.py:43-47 | the correction agrees with the code on every length except `max + 3` |
| Catalog.Entry.DisplayName | zorin_exec_guard/exec_guard.py:148 | the alternative's name when the entry has one, else the entry's name |
| Catalog.VerdictOf | zorin_exec_guard/exec_guard.py:486-488 | an entry is a hit exactly when it has a pattern for the platform that compiles and matches a prefix of the filename; the scan raises exactly when the pattern does not compile |
| Catalog.FindReplacement | zorin_exec_guard/exec_guard.py:484-491 | the loop with early returns computes the recursive scan `Resolve` |
| Catalog.ResolveFromSpec | zorin_exec_guard/exec_guard.py:484-491 | a result found from position `i` is a hit, with every entry between `i` and it passed over; likewise for a pattern that raises; "none" means every entry was passed over |
| Catalog.ResolveFromStopsAt | zorin_exec_guard/exec_guard.py:484-491 | conversely, when the entries `k..i` are passed over, entry `i` decides the result of the scan from `k` (none past the end) |
| Catalog.ResolveFound | zorin_exec_guard/exec_guard.py:484-491 | the entry at `i` is returned if and only if it is a hit and every earlier entry lacks a pattern for the platform or does not match |
| Catalog.ResolveNotFound | zorin_exec_guard/exec_guard.py:484-491 | no replacement if and only if every entry is passed over; in particular the empty catalog, which a failed load at lines 58-63 leaves, finds nothing |
| Catalog.ResolveBadPattern | zorin_exec_guard/exec_guard.py:487 | the scan raises if and only if it reaches an uncompilable pattern before any match |
| Catalog.FoundNoLaterThan | zorin_exec_guard/exec_guard.py:484-491 | when nothing raises before a matching entry, the scan finds that entry or an earlier one |
| Catalog.EarlierEntryWins | zorin_exec_guard/exec_guard.py:484-491 | with compiling patterns, a matching entry guarantees a result no later than it: catalog order decides between overlapping patterns |
| Catalog.CompilingPatternsNeverRaise | zorin_exec_guard/exec_guard.py:487 | when every pattern for the platform compiles, the scan never raises |
| Catalog.PrefixMatch | zorin_exec_guard/exec_guard.py:488 | `re.match` is anchored only at the start: a pattern that fully matches the filename, or that matches the empty string, matches (for patterns that do not look past their match) |
| Catalog.PrefixMatchExtends | zorin_exec_guard/exec_guard.py:488 | a prefix match survives appending characters to the filename (true of `re.match` for patterns that do not look past their match) |
| Catalog.ResolveExtendedFilename | zorin_exec_guard/exec_guard.py:484-491 | appending to a filename that resolves still resolves, to the same entry or an earlier one (for `re.match`, patterns that do not look past their match) |
| Catalog.ExamplePlayerResolves | zorin_exec_guard/exec_guard.py:484-491 | the pattern "vlc" selects its entry for "VLC-3.0.exe", case ignored |
| Catalog.UnknownToolNotFound | zorin_exec_guard/exec_guard.py:484-491 | "unknown_tool.bin" finds nothing in that catalog |
| Availability.GetInstalledFlatpakRef | zorin_exec_guard/exec_guard.py:408-417 | a reference exists if and only if the app is installed for the user or system-wide; the user installation wins when both have it |
| Availability.IsAptPackageInstalled | zorin_exec_guard/exec_guard.py:419-421 | a package counts as installed only when the cache knows it, and then exactly when the cache marks it installed |
| Availability.DesktopAppInfo | zorin_exec_guard/exec_guard.py:78-82 | a launcher resolves if and only if its desktop file exists; failure leaves the field unset |
| Availability.ProbeAvailability | zorin_exec_guard/exec_guard.py:69-84 | the four fields are filled, step by step, exactly as the backends answer, and `installed` is the OR of line 84 |
| Availability.InstalledIff | zorin_exec_guard/exec_guard.py:84 | installed if and only if there is a replacement and either its desktop file exists, or its Flatpak is installed for the user or the system, or its non-empty apt package is installed, or it has a web link |
| Availability.UserInstallationFirst | zorin_exec_guard/exec_guard.py:408-412 | an app installed in both places is reported from the user installation |
| Availability.Setup | zorin_exec_guard/exec_guard.py:52-84 | construction fails exactly when the scan raises; otherwise the guard holds the filename, the entry found (or none) and the probed fields |
| Presentation.MainMessageOf | zorin_exec_guard/exec_guard.py:138-153 | the headline priority: no replacement gives "Are you sure" with the filename truncated by the corrected truncation to 48 plus at most 5 characters; then the entry's own message; then Steam; then "already installed" or "can be installed", matching `installed`, with the display name; each case holds exactly when the ones before it do not |
| Presentation.HeadlineAgreesWithCode | zorin_exec_guard/exec_guard.py:138-140 | for every filename not exactly 51 characters long the headline shows exactly the as-written truncation of line 140 |
| Presentation.HeadlineAtGap | zorin_exec_guard/exec_guard.py:138-140 | for a 51-character filename line 140 shows 50 characters, one silently dropped, where the headline shows the whole filename |
| Presentation.AlternativeMessageOf | zorin_exec_guard/exec_guard.py:155-159 | a note exists if and only if the replacement names an alternative; it names the alternative, then the entry |
| Presentation.ButtonOf | zorin_exec_guard/exec_guard.py:185-215 | Cancel if and only if there is no replacement; OK if and only if `noButton`, or installed with no desktop launcher, Flatpak or web link; otherwise Launch when installed and Install when not, naming the display name |
| Presentation.ButtonMatchesMessage | zorin_exec_guard/exec_guard.py:138-215 | for an ordinary entry, Launch goes with "already installed" and Install with "can be installed", under the same name |
| Presentation.NoReplacementWindow | zorin_exec_guard/exec_guard.py:189-193 | without a replacement: "Are you sure", Cancel and no alternative note |
| Presentation.ExamplePlayerInstalledByApt | zorin_exec_guard/exec_guard.py:73-84 | with its apt package installed, the example player counts as installed and is offered OK |
| Dispatch.FlatpakDesktopId | zorin_exec_guard/exec_guard.py:456 | the desktop id is the app id followed by `.desktop` |
| Dispatch.PreferredLaunch | zorin_exec_guard/exec_guard.py:111-126 | Steam launches if and only if the entry has a Steam id, with the argv `steam -applaunch <id>`; a Flatpak launch uses `<id>.desktop`; nothing is launched if and only if no mechanism applies |
| Dispatch.FirstApplicableSpec | zorin_exec_guard/exec_guard.py:111-126 | the first applicable candidate is the earliest one that applies, and none applies exactly when every candidate is absent |
| Dispatch.PreferredLaunchIsFirstApplicable | zorin_exec_guard/exec_guard.py:111-126 | the nested early returns make exactly one launch: the first of Steam, resolved launcher, web link and Flatpak that applies |
| Dispatch.LaunchButtonWithoutLaunch | zorin_exec_guard/exec_guard.py:196-209 | a Launch button starts nothing if and only if the entry counts as installed only through apt, and names a desktop launcher that did not resolve and no other mechanism |
| Dispatch.RemoteBranch | zorin_exec_guard/exec_guard.py:379-392 | a branch is found if and only if the entry names a remote, the system installation knows it and its default branch is non-empty; the branch found is that default branch |
| Dispatch.GetSoftwareAppId | zorin_exec_guard/exec_guard.py:373-399 | the method that reassigns `app_id` and returns early computes `SoftwareAppId` |
| Dispatch.SoftwareAppId | zorin_exec_guard/exec_guard.py:373-399 | the preference order: the full `system/flatpak/...` reference when the remote has a default branch, else the Flatpak id, else the AppStream id, else the display name |
| Dispatch.SoftwareRefFields | zorin_exec_guard/exec_guard.py:393 | the reference splits at `/` into system, flatpak, the remote, desktop, `<id>.desktop` and the branch, when none of these contains `/` |
| Dispatch.InstallReplacementApp | zorin_exec_guard/exec_guard.py:128-136 | an entry with an apt package goes to an apt transaction; any other goes to the GNOME Software details page for its software id |
| AptInstall.ClassifyError | zorin_exec_guard/exec_guard.py:358-364 | a declined authorisation shows nothing; a transaction failure is shown as it is; anything else is shown as `TransactionFailed(error-unknown, str(error))` |
| AptInstall.ErrorDialogsFor | zorin_exec_guard/exec_guard.py:358-367 | one error shows at most one dialog, none if and only if the authorisation was declined, and the dialog shown is the classified error |
| AptInstall.InstallReport | zorin_exec_guard/exec_guard.py:334-342 | nothing on a failed install; on success exactly one of two things: the entry's desktop launcher is launched when its desktop file exists, otherwise the "has been installed" notice naming the display name; a launcher whose desktop file exists is always the one launched |
| AptInstall.AptInstallation.constructor | zorin_exec_guard/exec_guard.py:292-296 | a new installation of an apt entry, with nothing requested, shown or recorded |
| AptInstall.AptInstallation.Run | zorin_exec_guard/exec_guard.py:298-304 | a cache update is requested if and only if the cache lacks the package; otherwise the install is requested directly |
| AptInstall.AptInstallation.DoUpdate | zorin_exec_guard/exec_guard.py:306-315 | appends the cache-update request |
| AptInstall.AptInstallation.OnFinishedUpdate | zorin_exec_guard/exec_guard.py:317-320 | only `exit-success` schedules the install; any other exit ends the attempt with nothing requested or emitted |
| AptInstall.AptInstallation.DoInstall | zorin_exec_guard/exec_guard.py:322-331 | appends the install request for the entry's package |
| AptInstall.AptInstallation.OnFinishedInstall | zorin_exec_guard/exec_guard.py:346-348 | records the exit status |
| AptInstall.AptInstallation.OnInstallDialogFinished | zorin_exec_guard/exec_guard.py:333-344 | appends the report for the recorded exit, then `finished`; the emission count goes from 0 to 1 |
| AptInstall.AptInstallation.OnError | zorin_exec_guard/exec_guard.py:358-367 | appends the classified error dialog, if any, and changes nothing else |
| AptInstall.AttemptEffects | zorin_exec_guard/exec_guard.py:298-344 | an attempt has one to four effects; the first is the cache update when the cache lacks the package and the install request otherwise; the last is `finished` if and only if the install was requested and its transaction finished |
| AptInstall.AttemptErrorDialogs | zorin_exec_guard/exec_guard.py:298-367 | an attempt shows `on_error`'s dialogs for the update when it was needed and failed to start, for the install when it was requested and failed to start, and none otherwise; at most one, and none when every transaction started |
| AptInstall.RunInstallation | zorin_exec_guard/exec_guard.py:298-348 | driving the callbacks in main-loop order gives exactly `AttemptEffects` and `AttemptErrorDialogs` |
| AptInstall.AttemptShape | zorin_exec_guard/exec_guard.py:298-344 | the three shapes of an attempt: the failed update alone; the requests with no report; the requests, the report and `finished` |
| AptInstall.AttemptRequests | zorin_exec_guard/exec_guard.py:298-331 | an update is requested if and only if the cache lacks the package; an install if and only if the cache has it or the update ended in `exit-success` |
| AptInstall.AttemptFinishes | zorin_exec_guard/exec_guard.py:333-344 | `finished` is emitted at most once, as the last effect, and if and only if the install was requested and its transaction finished |
| AptInstall.AttemptReport | zorin_exec_guard/exec_guard.py:333-344 | before `finished` comes a launch or the notice after a successful install, and the bare install request after a failed one |
| AptInstall.AttemptErrorsShape | zorin_exec_guard/exec_guard.py:358-367 | an attempt shows at most one error dialog, always a transaction failure, and none when every transaction started |
| AptInstall.RefreshThenInstall | zorin_exec_guard/exec_guard.py:298-344 | unknown package, refresh and install succeed: update, install, launch or notice, `finished`, in that order |
| AptInstall.DeclinedInstallAuthorisation | zorin_exec_guard/exec_guard.py:358-361 | a declined install authorisation shows no error and emits no `finished` |

## Left out

- The GTK window and widgets are not modelled: `_create_window`, the dialogs, and the
  unknown-package warning's layout. Only the choices they display are modelled.
- The gettext translations are not modelled; messages are tagged values.
- Loading `app_db.json` (lines 58-63) is I/O. The catalog is a parameter, and a failed
  load is the empty catalog.
- The regular-expression engine is a parameter, and so is `re.IGNORECASE` inside it.
  `re.match` is modelled as a full match of some prefix.
- `open_apt_cache`'s error dialogs and `sys.exit` are not modelled. The apt cache is a map
  from package name to whether the package is installed.
- The Flatpak, apt, `Gio.DesktopAppInfo` and aptdaemon backends are snapshot inputs. The
  failures the code catches (an unknown Flatpak ref, an unknown remote, a missing desktop
  file) are absent answers. Two failures of the Flatpak and apt-cache backends that the
  code lets escape are listed next.
- The aptdaemon client calls `AptClient()` (line 296), `update_cache()` (line 307) and
  `install_packages` (line 323) run outside any `try`; the model assumes they return a
  client or a transaction.
- Dispatch.SoftwareAppId: `Flatpak.Installation.new_system(None)` at line 381 is called
  outside the `try`, so a failure to open the system installation raises out of
  `get_software_app_id`; the model assumes it opens.
- `open_apt_cache` re-raises a `SystemError` that does not mention `sources.list`
  (line 429); the model assumes the cache opens.
- The D-Bus call of `install_app_from_software`, `spawn_process` and the bodies of the
  `launch_*` functions are calls into other programs. Only the launch chosen is modelled,
  so a launch that fails is not modelled either. This includes the undefined name
  `replacement` in the logging call of `launch_desktop_app` (line 475), which would raise
  a `NameError` when a desktop launch fails.
- The 200 ms `GLib.timeout_add` delay (line 319) is not modelled; `DoInstall` runs after a
  successful update as a plain step.
- AptInstall.AptInstallation.OnInstallDialogFinished: it requires the install
  transaction to have finished. This follows aptdaemon's progress dialog, which emits
  `finished` only when its transaction finishes. So a transaction that fails to start
  (the error handler runs) never reaches this handler. In Python, reading `self.exit`
  before it is set would raise.
- AptInstall.InstallReport: a desktop launch that fails is not modelled, and neither is
  where that failure goes. `launch_desktop_app` catches it, then raises `NameError` at
  line 475, and the `except` at line 338 turns that into the notice. Only a launcher that
  does not resolve falls through to the notice.
- Catalog.PrefixMatch, Catalog.PrefixMatchExtends, Catalog.ResolveExtendedFilename: they
  hold of the model's prefix match, and of `re.match` only for patterns that do not look
  past their match. A pattern ending in `$`, `\Z`, `\b` or a lookahead can match the
  empty string yet not a longer filename (`re.match('$', 'x')` fails), and can stop
  matching when characters are appended.
- Presentation.MainMessageOf: the headline uses the corrected truncation, so a filename
  exactly 51 characters long is shown whole where line 140 shows 50 characters
  (`HeadlineAtGap`); for every other length it shows what line 140 computes
  (`HeadlineAgreesWithCode`).
- `get_executable` and `setup.py` are outside the modelled core.
- The window title and the unknown-package warning also truncate the filename (lines 173
  and 219). Only the headline's use at line 140 is modelled.

## Findings

| source | as written | input that shows it | evidently intended | confidence | as-written member | corrected member |
|---|---|---|---|---|---|---|
| zorin_exec_guard/exec_guard.py:46-47 | the ellipsis goes in only when `len(prefix) > max`, but only `max - 1` prefix characters are kept | `truncate_with_ellipses("abcd", 1)` returns `"bcd"`: for any text exactly `max + 3` long, the character at index `max - 1` disappears and no ellipsis marks the cut | the prefix is cut only when the ellipsis goes in (`prefix[0:max-1] + '...' if len(prefix) > max else prefix`), so every positive `max` shows a text whole (up to `max + 3` characters) or as its first `max - 1` characters, `...` and its last three | not executed | Text.AsWrittenDropsCharacter | Text.TruncateWithEllipses |
