/** The replacement catalog (the JSON list in app_db.json) and `find_replacement`,
    which picks the first entry whose platform pattern matches the executable's
    filename. */
module Catalog {
  import opened Wrappers

  /** The `flatpak` object of an entry: the application id and an optional remote. */
  datatype FlatpakSpec = FlatpakSpec(id: string, remote: Option<string>)

  /** One catalog entry. Each optional JSON key is an `Option`; `noButton` records only
      whether the key is present, which is all the guard ever asks of it. */
  datatype Entry = Entry(
    name: string,
    regex: map<string, string>,        // platform tag -> pattern
    steam: Option<string>,             // Steam application id
    desktopLauncher: Option<string>,   // desktop file id
    webLink: Option<string>,           // the link's href
    flatpak: Option<FlatpakSpec>,
    apt: Option<string>,               // Debian package name
    appstream: Option<string>,         // AppStream component id
    alternative: Option<string>,       // name of the app this entry replaces
    mainMessage: Option<string>,
    noButton: bool)
  {
    /** The name the guard shows for the entry: the alternative's name when the entry
        has one, its own name otherwise. */
    function DisplayName(): (n: string)
      ensures alternative.Some? ==> n == alternative.value
      ensures alternative.None? ==> n == name
    {
      if alternative.Some? then alternative.value else name
    }
  }

  /** The regular-expression engine, which is not part of this model: whether a pattern
      compiles, and whether it matches a WHOLE string case-insensitively (Python's
      `re.compile(p, re.IGNORECASE)` followed by a full match). */
  datatype RegexEngine = RegexEngine(compiles: string -> bool, fullMatch: (string, string) -> bool)

  /** `pattern.match(filename)`: Python's `re.match` anchors the pattern at the start of
      the string only, so it succeeds when some prefix of the filename matches fully. */
  predicate PrefixMatch(engine: RegexEngine, pattern: string, filename: string)
    ensures engine.fullMatch(pattern, filename) ==> PrefixMatch(engine, pattern, filename)
    ensures engine.fullMatch(pattern, "") ==> PrefixMatch(engine, pattern, filename)
  {
    assert filename[..|filename|] == filename && filename[..0] == "";
    exists k :: 0 <= k <= |filename| && engine.fullMatch(pattern, filename[..k])
  }

  /** What one iteration of the scan does with an entry. */
  datatype Verdict = Skip | Hit | Raises

  function VerdictOf(engine: RegexEngine, filename: string, platform: string, e: Entry): (v: Verdict)
    ensures v == Hit <==>
              platform in e.regex && engine.compiles(e.regex[platform])
              && PrefixMatch(engine, e.regex[platform], filename)
    ensures v == Raises <==> platform in e.regex && !engine.compiles(e.regex[platform])
  {
    if platform !in e.regex then Skip
    else if !engine.compiles(e.regex[platform]) then Raises
    else if PrefixMatch(engine, e.regex[platform], filename) then Hit
    else Skip
  }

  /** The outcome of `find_replacement`: the entry (with its position in the catalog),
      none, or the `re.error` that an uncompilable pattern raises out of the scan. */
  datatype Resolution = Found(index: nat, entry: Entry) | NotFound | BadPattern(index: nat)

  /** The scan, as a recursive function, starting at position `i`. */
  function ResolveFrom(engine: RegexEngine, filename: string, platform: string,
                       appDb: seq<Entry>, i: nat): Resolution
    decreases |appDb| - i
  {
    if i >= |appDb| then NotFound
    else match VerdictOf(engine, filename, platform, appDb[i])
      case Hit => Found(i, appDb[i])
      case Raises => BadPattern(i)
      case Skip => ResolveFrom(engine, filename, platform, appDb, i + 1)
  }

  function Resolve(engine: RegexEngine, filename: string, platform: string, appDb: seq<Entry>): Resolution
  {
    ResolveFrom(engine, filename, platform, appDb, 0)
  }

  /** `find_replacement`: a loop over the catalog that returns at the first entry whose
      pattern for `platform` matches. */
  method FindReplacement(engine: RegexEngine, filename: string, platform: string, appDb: seq<Entry>)
    returns (r: Resolution)
    ensures r == Resolve(engine, filename, platform, appDb)
  {
    var i := 0;
    while i < |appDb|
      invariant 0 <= i <= |appDb|
      invariant ResolveFrom(engine, filename, platform, appDb, i) == Resolve(engine, filename, platform, appDb)
    {
      var app := appDb[i];
      if platform in app.regex {
        var pattern := app.regex[platform];
        if !engine.compiles(pattern) {
          return BadPattern(i);
        }
        if PrefixMatch(engine, pattern, filename) {
          return Found(i, app);
        }
      }
      i := i + 1;
    }
    return NotFound;
  }

  // ---------------------------------------------------------------------------
  // What the scan computes

  /** Every entry in `lo..hi` is passed over. */
  predicate AllSkipped(engine: RegexEngine, filename: string, platform: string,
                       appDb: seq<Entry>, lo: nat, hi: nat)
    requires hi <= |appDb|
  {
    forall j :: lo <= j < hi ==> VerdictOf(engine, filename, platform, appDb[j]) == Skip
  }

  lemma {:induction false} ResolveFromSpec(engine: RegexEngine, filename: string, platform: string,
                                           appDb: seq<Entry>, i: nat)
    requires i <= |appDb|
    ensures var r := ResolveFrom(engine, filename, platform, appDb, i);
            && (r.Found? ==>
                  i <= r.index < |appDb| && r.entry == appDb[r.index]
                  && VerdictOf(engine, filename, platform, appDb[r.index]) == Hit
                  && AllSkipped(engine, filename, platform, appDb, i, r.index))
            && (r.BadPattern? ==>
                  i <= r.index < |appDb|
                  && VerdictOf(engine, filename, platform, appDb[r.index]) == Raises
                  && AllSkipped(engine, filename, platform, appDb, i, r.index))
            && (r.NotFound? ==> AllSkipped(engine, filename, platform, appDb, i, |appDb|))
    decreases |appDb| - i
  {
    if i < |appDb| && VerdictOf(engine, filename, platform, appDb[i]) == Skip {
      ResolveFromSpec(engine, filename, platform, appDb, i + 1);
    }
  }

  /** Conversely, once the scan reaches a position `i` with every entry from `k` to `i`
      passed over, the result is decided by entry `i`, or is "none" past the end. */
  lemma {:induction false} ResolveFromStopsAt(engine: RegexEngine, filename: string, platform: string,
                                             appDb: seq<Entry>, k: nat, i: nat)
    requires k <= i <= |appDb|
    requires AllSkipped(engine, filename, platform, appDb, k, i)
    ensures i == |appDb| ==> ResolveFrom(engine, filename, platform, appDb, k) == NotFound
    ensures i < |appDb| && VerdictOf(engine, filename, platform, appDb[i]) == Hit ==>
              ResolveFrom(engine, filename, platform, appDb, k) == Found(i, appDb[i])
    ensures i < |appDb| && VerdictOf(engine, filename, platform, appDb[i]) == Raises ==>
              ResolveFrom(engine, filename, platform, appDb, k) == BadPattern(i)
    decreases i - k
  {
    if k < i {
      ResolveFromStopsAt(engine, filename, platform, appDb, k + 1, i);
    }
  }

  /** The entry found is the FIRST one, in catalog order, whose pattern for the platform
      compiles and matches a prefix of the filename; every entry before it either has
      no pattern for the platform or one that does not match. */
  lemma ResolveFound(engine: RegexEngine, filename: string, platform: string, appDb: seq<Entry>,
                     i: nat, e: Entry)
    ensures Resolve(engine, filename, platform, appDb) == Found(i, e) <==>
              && i < |appDb| && e == appDb[i]
              && VerdictOf(engine, filename, platform, appDb[i]) == Hit
              && AllSkipped(engine, filename, platform, appDb, 0, i)
  {
    ResolveFromSpec(engine, filename, platform, appDb, 0);
    if i < |appDb| && AllSkipped(engine, filename, platform, appDb, 0, i) {
      ResolveFromStopsAt(engine, filename, platform, appDb, 0, i);
    }
  }

  /** No replacement exactly when every entry is passed over; in particular for the
      empty catalog, which is what a missing or unreadable catalog file leaves. */
  lemma ResolveNotFound(engine: RegexEngine, filename: string, platform: string, appDb: seq<Entry>)
    ensures Resolve(engine, filename, platform, appDb) == NotFound <==>
              AllSkipped(engine, filename, platform, appDb, 0, |appDb|)
  {
    ResolveFromSpec(engine, filename, platform, appDb, 0);
    if AllSkipped(engine, filename, platform, appDb, 0, |appDb|) {
      ResolveFromStopsAt(engine, filename, platform, appDb, 0, |appDb|);
    }
  }

  /** The scan raises exactly when it reaches an uncompilable pattern before any match. */
  lemma ResolveBadPattern(engine: RegexEngine, filename: string, platform: string, appDb: seq<Entry>, i: nat)
    ensures Resolve(engine, filename, platform, appDb) == BadPattern(i) <==>
              && i < |appDb|
              && VerdictOf(engine, filename, platform, appDb[i]) == Raises
              && AllSkipped(engine, filename, platform, appDb, 0, i)
  {
    ResolveFromSpec(engine, filename, platform, appDb, 0);
    if i < |appDb| && AllSkipped(engine, filename, platform, appDb, 0, i) {
      ResolveFromStopsAt(engine, filename, platform, appDb, 0, i);
    }
  }

  /** Every pattern registered for `platform` compiles. */
  predicate PatternsCompile(engine: RegexEngine, platform: string, appDb: seq<Entry>)
  {
    forall j :: 0 <= j < |appDb| && platform in appDb[j].regex ==> engine.compiles(appDb[j].regex[platform])
  }

  /** When nothing from `k` up to a matching entry `i` raises, the scan from `k` finds
      entry `i` or one before it. */
  lemma {:induction false} FoundNoLaterThan(engine: RegexEngine, filename: string, platform: string,
                                           appDb: seq<Entry>, k: nat, i: nat)
    requires k <= i < |appDb| && VerdictOf(engine, filename, platform, appDb[i]) == Hit
    requires forall j :: k <= j < i ==> VerdictOf(engine, filename, platform, appDb[j]) != Raises
    ensures var r := ResolveFrom(engine, filename, platform, appDb, k);
            r.Found? && k <= r.index <= i
    decreases i - k
  {
    if VerdictOf(engine, filename, platform, appDb[k]) == Skip {
      FoundNoLaterThan(engine, filename, platform, appDb, k + 1, i);
    }
  }

  /** With compilable patterns the scan never raises, and catalog order decides between
      overlapping patterns: when entry `i` matches, the entry found is `i` or an
      earlier one. */
  lemma EarlierEntryWins(engine: RegexEngine, filename: string, platform: string, appDb: seq<Entry>, i: nat)
    requires PatternsCompile(engine, platform, appDb)
    requires i < |appDb| && VerdictOf(engine, filename, platform, appDb[i]) == Hit
    ensures var r := Resolve(engine, filename, platform, appDb);
            r.Found? && r.index <= i
  {
    FoundNoLaterThan(engine, filename, platform, appDb, 0, i);
  }

  /** With compilable patterns the scan never raises. */
  lemma CompilingPatternsNeverRaise(engine: RegexEngine, filename: string, platform: string, appDb: seq<Entry>)
    requires PatternsCompile(engine, platform, appDb)
    ensures !Resolve(engine, filename, platform, appDb).BadPattern?
  {
    ResolveFromSpec(engine, filename, platform, appDb, 0);
  }

  /** Prefix semantics: a pattern that matches a filename still matches it with anything
      appended ("foo" matches "foobar.exe"). */
  lemma PrefixMatchExtends(engine: RegexEngine, pattern: string, filename: string, more: string)
    requires PrefixMatch(engine, pattern, filename)
    ensures PrefixMatch(engine, pattern, filename + more)
  {
    var k :| 0 <= k <= |filename| && engine.fullMatch(pattern, filename[..k]);
    assert (filename + more)[..k] == filename[..k];
  }

  /** Appending characters to the filename never makes the guard lose the replacement
      it found: the same entry, or an earlier one, is found. */
  lemma ResolveExtendedFilename(engine: RegexEngine, filename: string, more: string,
                                platform: string, appDb: seq<Entry>)
    requires Resolve(engine, filename, platform, appDb).Found?
    ensures var r := Resolve(engine, filename + more, platform, appDb);
            r.Found? && r.index <= Resolve(engine, filename, platform, appDb).index
  {
    var r0 := Resolve(engine, filename, platform, appDb);
    ResolveFromSpec(engine, filename, platform, appDb, 0);
    PrefixMatchExtends(engine, appDb[r0.index].regex[platform], filename, more);
    forall j | 0 <= j < r0.index
      ensures VerdictOf(engine, filename + more, platform, appDb[j]) != Raises
    {
      assert VerdictOf(engine, filename, platform, appDb[j]) == Skip;
    }
    FoundNoLaterThan(engine, filename + more, platform, appDb, 0, r0.index);
  }

  // ---------------------------------------------------------------------------
  // A concrete engine for patterns without metacharacters

  function LowerAscii(c: char): char
  {
    if 'A' <= c <= 'Z' then (c as int + 32) as char else c
  }

  /** Patterns made of plain characters, compared ignoring ASCII case: a stand-in for the
      regular-expression engine on the simplest patterns. */
  const LiteralEngine: RegexEngine :=
    RegexEngine(_ => true,
                (p: string, s: string) => |p| == |s| && forall j :: 0 <= j < |p| ==> LowerAscii(p[j]) == LowerAscii(s[j]))

  /** The example player entry: `vlc` on Linux, installed from the `vlc` package. */
  const ExamplePlayer: Entry :=
    Entry("Example Player", map["linux" := "vlc"], None, None, None, None, Some("vlc"),
          None, None, None, false)

  /** The pattern "vlc" selects the entry for "VLC-3.0.exe": prefix match, case ignored. */
  lemma ExamplePlayerResolves()
    ensures Resolve(LiteralEngine, "VLC-3.0.exe", "linux", [ExamplePlayer]) == Found(0, ExamplePlayer)
  {
    var f := "VLC-3.0.exe";
    assert f[..3] == "VLC";
    assert LiteralEngine.fullMatch("vlc", f[..3]);
    assert PrefixMatch(LiteralEngine, "vlc", f);
  }

  /** A literal pattern whose first character differs from the filename's, case
      ignored, matches no prefix of it. */
  lemma LiteralFirstCharacterMismatch(pattern: string, filename: string)
    requires |pattern| > 0 && |filename| > 0 && LowerAscii(pattern[0]) != LowerAscii(filename[0])
    ensures !PrefixMatch(LiteralEngine, pattern, filename)
  {
    forall k | 0 <= k <= |filename| && k == |pattern|
      ensures !LiteralEngine.fullMatch(pattern, filename[..k])
    {
      assert filename[..k][0] == filename[0];
    }
  }

  /** A filename that does not start with the pattern finds nothing. */
  lemma UnknownToolNotFound()
    ensures Resolve(LiteralEngine, "unknown_tool.bin", "linux", [ExamplePlayer]) == NotFound
  {
    var f := "unknown_tool.bin";
    assert "linux" in ExamplePlayer.regex && ExamplePlayer.regex["linux"] == "vlc";
    LiteralFirstCharacterMismatch("vlc", f);
    assert VerdictOf(LiteralEngine, f, "linux", ExamplePlayer) == Skip;
    assert ResolveFrom(LiteralEngine, f, "linux", [ExamplePlayer], 1) == NotFound;
  }
}
