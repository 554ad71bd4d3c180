/** The small helpers of `CoreApp`: first-run and update detection from the
    run-marker files, and the command lines handed to `Process.Start`.

    The file system is a map from file name to contents (a file exists when
    its name is a key). Starting a process is modelled by the `Launch` value
    that would be passed to `Process.Start`; the settings that name the
    browsers are inputs. */
module CoreApp {
  import opened Basics
  import Text
  import Seqs

  type FileSystem = map<string, string>

  const FirstRunFileName: string := "first-run.txt"
  const LastRunFileName: string := "last-run.txt"

  /** The characters `PreviousVersion` trims: space, CR and LF. */
  const VersionPadding: set<char> := {' ', '\r', '\n'}

  /** `IsVeryFirstRun`: never once the last-run marker exists; otherwise
      exactly when the first-run marker exists. */
  function IsVeryFirstRun(fs: FileSystem): (r: bool)
    ensures LastRunFileName in fs ==> !r
    ensures LastRunFileName !in fs ==> (r <==> FirstRunFileName in fs)
    ensures r ==> PreviousVersion(fs) == ""
  {
    if LastRunFileName in fs then false else FirstRunFileName in fs
  }

  /** `PreviousVersion`: "" without a last-run marker, otherwise its
      contents with surrounding spaces and line breaks removed. */
  function PreviousVersion(fs: FileSystem): (r: string)
    ensures LastRunFileName !in fs ==> r == ""
    ensures |r| > 0 ==> r[0] !in VersionPadding && r[|r| - 1] !in VersionPadding
    ensures LastRunFileName in fs ==>
              exists lo, hi :: 0 <= lo <= hi <= |fs[LastRunFileName]| && r == fs[LastRunFileName][lo..hi] &&
                               (forall i :: 0 <= i < lo ==> fs[LastRunFileName][i] in VersionPadding) &&
                               (forall i :: hi <= i < |fs[LastRunFileName]| ==> fs[LastRunFileName][i] in VersionPadding)
  {
    if LastRunFileName !in fs then "" else Text.Trim(fs[LastRunFileName], VersionPadding)
  }

  /** `HasBeenUpdated`: the running version differs, ignoring case, from the
      recorded one. */
  function HasBeenUpdated(appVersion: string, fs: FileSystem): (r: bool)
    ensures appVersion == PreviousVersion(fs) ==> !r
    ensures LastRunFileName !in fs ==> (r <==> appVersion != "")
    ensures !r <==> |appVersion| == |PreviousVersion(fs)| &&
                    forall i :: 0 <= i < |appVersion| ==>
                      Text.LowerChar(appVersion[i]) == Text.LowerChar(PreviousVersion(fs)[i])
  {
    !Text.EqualsIgnoreCase(appVersion, PreviousVersion(fs))
  }

  /** `WriteLastRunVersion`: records the running version in the marker. */
  function WriteLastRunVersion(fs: FileSystem, appVersion: string): (r: FileSystem)
    ensures LastRunFileName in r && r[LastRunFileName] == appVersion
    ensures forall f :: f != LastRunFileName ==> (f in r <==> f in fs)
    ensures forall f :: f != LastRunFileName && f in fs ==> r[f] == fs[f]
  {
    fs[LastRunFileName := appVersion]
  }

  /** A very first run has no recorded version, so it counts as updated
      exactly when the running version is non-empty. */
  lemma FirstRunIsUpdate(appVersion: string, fs: FileSystem)
    requires IsVeryFirstRun(fs)
    ensures PreviousVersion(fs) == ""
    ensures HasBeenUpdated(appVersion, fs) <==> appVersion != ""
  {
  }

  /** Once the running version is recorded, the next start is neither a very
      first run nor an update (for a version without surrounding padding). */
  lemma RecordedVersionIsCurrent(appVersion: string, fs: FileSystem)
    requires |appVersion| > 0 ==> appVersion[0] !in VersionPadding && appVersion[|appVersion| - 1] !in VersionPadding
    ensures !IsVeryFirstRun(WriteLastRunVersion(fs, appVersion))
    ensures PreviousVersion(WriteLastRunVersion(fs, appVersion)) == appVersion
    ensures !HasBeenUpdated(appVersion, WriteLastRunVersion(fs, appVersion))
  {
    Text.TrimClean(appVersion, VersionPadding);
  }

  /** The comparison ignores case: a recorded version that differs from the
      running one only in the case of its ASCII letters is not an update. */
  lemma UpdateIgnoresCase(appVersion: string, fs: FileSystem)
    requires |appVersion| > 0 ==> appVersion[0] !in VersionPadding && appVersion[|appVersion| - 1] !in VersionPadding
    ensures !HasBeenUpdated(appVersion, WriteLastRunVersion(fs, Text.ToLower(appVersion)))
  {
    var lower := Text.ToLower(appVersion);
    LowerKeepsClean(appVersion);
    RecordedVersionIsCurrent(lower, fs);
    Text.ToLowerIdempotent(appVersion);
  }

  /** Lower-casing never turns a letter into padding. */
  lemma LowerKeepsClean(v: string)
    requires |v| > 0 ==> v[0] !in VersionPadding && v[|v| - 1] !in VersionPadding
    ensures var lower := Text.ToLower(v);
            |lower| > 0 ==> lower[0] !in VersionPadding && lower[|lower| - 1] !in VersionPadding
  {
  }

  /** Reading the recorded version again gives the same answer: the trimmed
      value has nothing left to trim. */
  lemma PreviousVersionIsTrimmed(fs: FileSystem)
    ensures Text.Trim(PreviousVersion(fs), VersionPadding) == PreviousVersion(fs)
  {
    Text.TrimClean(PreviousVersion(fs), VersionPadding);
  }

  /** What `Process.Start(app, arguments)` is asked to run. */
  datatype Launch = Launch(app: string, arguments: string)

  const Quote: char := '"'

  /** A parameter wrapped in double quotes. */
  predicate Wrapped(s: string) {
    |s| >= 2 && s[0] == Quote && s[|s| - 1] == Quote
  }

  /** Text with no double quote at either end, as `Trim('"')` leaves it. */
  predicate Unquoted(x: string) {
    |x| > 0 ==> x[0] !in {Quote} && x[|x| - 1] !in {Quote}
  }

  /** The quoting decision of `RunApp` on a parameter already stripped of
      its surrounding quotes: wrapped in double quotes exactly when it holds
      a space or an equals sign, around exactly that text, and otherwise
      emitted as it is. */
  function QuoteText(x: string): (r: string)
    requires Unquoted(x)
    ensures Wrapped(r) <==> ' ' in x || '=' in x
    ensures !Wrapped(r) ==> r == x
    ensures Wrapped(r) ==> r[1..|r| - 1] == x
  {
    assert !Wrapped(x);
    if ' ' in x || '=' in x then
      var w := [Quote] + x + [Quote];
      assert w[1..|w| - 1] == x;
      assert w[0] == Quote && w[|w| - 1] == Quote;
      w
    else x
  }

  /** One parameter of `RunApp`: surrounding double quotes stripped, then
      quoted by `QuoteText`. */
  function QuoteArgument(p: string): (r: string)
    ensures var x := Text.Trim(p, {Quote});
            && (Wrapped(r) <==> ' ' in x || '=' in x)
            && (!Wrapped(r) ==> r == x)
            && (Wrapped(r) ==> r[1..|r| - 1] == x)
  {
    QuoteText(Text.Trim(p, {Quote}))
  }

  /** Stripping the quotes off a quoted text gives the text back. */
  lemma QuoteTextUnquotes(x: string)
    requires Unquoted(x)
    ensures Text.Trim(QuoteText(x), {Quote}) == x
  {
    if ' ' in x || '=' in x {
      UnwrapWrapped(x);
    } else {
      Text.TrimClean(x, {Quote});
    }
  }

  lemma UnwrapWrapped(x: string)
    requires Unquoted(x)
    ensures Text.Trim([Quote] + x + [Quote], {Quote}) == x
  {
    Text.TrimSurrounded(x, Quote, {Quote});
    Text.TrimClean(x, {Quote});
  }

  /** Stripping the quotes off a rendered parameter gives back the
      parameter without its surrounding quotes. */
  lemma QuoteArgumentUnquotes(p: string)
    ensures Text.Trim(QuoteArgument(p), {Quote}) == Text.Trim(p, {Quote})
  {
    QuoteTextUnquotes(Text.Trim(p, {Quote}));
  }

  /** Quotes already around a parameter make no difference. */
  lemma QuoteIgnoresSurroundingQuotes(p: string)
    ensures QuoteArgument([Quote] + p + [Quote]) == QuoteArgument(p)
  {
    Text.TrimSurrounded(p, Quote, {Quote});
  }

  /** Rendering a rendered parameter changes nothing. */
  lemma QuoteArgumentIdempotent(p: string)
    ensures QuoteArgument(QuoteArgument(p)) == QuoteArgument(p)
  {
    QuoteArgumentUnquotes(p);
  }

  function QuoteAll(ps: seq<string>): (r: seq<string>)
    ensures |r| == |ps|
    ensures forall i :: 0 <= i < |ps| ==> r[i] == QuoteArgument(ps[i])
  {
    seq(|ps|, i requires 0 <= i < |ps| => QuoteArgument(ps[i]))
  }

  /** The argument string of `RunApp`: the rendered parameters joined by
      single spaces, in order. */
  function RenderArguments(ps: seq<string>): string {
    Text.Join(" ", QuoteAll(ps))
  }

  /** One more parameter adds one space and its rendering at the end. */
  lemma RenderArgumentsSnoc(ps: seq<string>, p: string)
    requires |ps| > 0
    ensures RenderArguments(ps + [p]) == RenderArguments(ps) + " " + QuoteArgument(p)
  {
    var longer, parts := QuoteAll(ps + [p]), QuoteAll(ps) + [QuoteArgument(p)];
    forall i | 0 <= i < |longer|
      ensures longer[i] == parts[i]
    {
      if i < |ps| {
        assert (ps + [p])[i] == ps[i];
      }
    }
    assert longer == parts;
    Text.JoinSnoc(" ", QuoteAll(ps), QuoteArgument(p));
  }

  /** `n` parameters give their renderings plus `n - 1` separators. */
  lemma RenderArgumentsLength(ps: seq<string>)
    requires |ps| > 0
    ensures |RenderArguments(ps)| == Text.TotalLength(QuoteAll(ps)) + |ps| - 1
  {
    Text.JoinLength(" ", QuoteAll(ps));
  }

  /** `RunApp(app, params)`. */
  function RunApp(app: string, ps: seq<string>): (r: Launch)
    ensures r.app == app
    ensures r.arguments == RenderArguments(ps)
    ensures |ps| == 1 ==> r.arguments == QuoteArgument(ps[0])
    ensures ps == [] ==> r.arguments == ""
  {
    Launch(app, RenderArguments(ps))
  }

  /** The path rewrite of `OpenFile`: every '/' becomes '\'. */
  function ToBackslashes(path: string): (r: string)
    ensures |r| == |path|
    ensures forall i :: 0 <= i < |r| ==> r[i] != '/'
    ensures forall i :: 0 <= i < |path| && path[i] != '/' ==> r[i] == path[i]
    ensures forall i :: 0 <= i < |path| && path[i] == '/' ==> r[i] == '\\'
  {
    Text.ReplaceChar(path, '/', '\\')
  }

  /** `OpenFile` (and `OpenFolder`, which only forwards to it): Explorer
      with the rewritten path as its one parameter. */
  function OpenFile(path: string): (r: Launch)
    ensures r.app == "explorer.exe"
    ensures r.arguments == QuoteArgument(ToBackslashes(path))
  {
    RunApp("explorer.exe", [ToBackslashes(path)])
  }

  /** The browser settings `AppBrowsersFrontend` and `AppBrowsersBackend`. */
  datatype BrowserSettings = BrowserSettings(frontend: Option<string>, backend: Option<string>)

  /** The browser to start: the explicit one unless null or empty, else the
      front-end or back-end setting. */
  function ResolveBrowser(isFrontEnd: bool, browser: Option<string>, settings: BrowserSettings): (r: Option<string>)
    ensures !Text.IsNullOrEmpty(browser) ==> r == browser
    ensures Text.IsNullOrEmpty(browser) ==> r == (if isFrontEnd then settings.frontend else settings.backend)
  {
    Text.EmptyToNull(browser).OrElse(if isFrontEnd then settings.frontend else settings.backend)
  }

  /** The parameters kept by `OpenInBrowser`: those that are not null, empty
      or white space, in their original order. */
  function NonBlank(ps: seq<Option<string>>): (r: seq<string>)
    ensures |r| <= |ps|
    ensures forall i :: 0 <= i < |r| ==> !Text.IsNullOrWhiteSpace(Some(r[i]))
    decreases |ps|
  {
    if |ps| == 0 then []
    else if Text.IsNullOrWhiteSpace(ps[0]) then NonBlank(ps[1..])
    else [ps[0].value] + NonBlank(ps[1..])
  }

  /** Nothing usable is dropped: a parameter that is not blank is kept. */
  lemma {:induction false} NonBlankKeeps(ps: seq<Option<string>>, x: string)
    ensures x in NonBlank(ps) <==> Some(x) in ps && !Text.IsNullOrWhiteSpace(Some(x))
    decreases |ps|
  {
    if |ps| > 0 {
      NonBlankKeeps(ps[1..], x);
      assert ps == [ps[0]] + ps[1..];
    }
  }

  /** The `Where` test of `OpenInBrowser`. */
  const Usable: Option<string> -> bool := (o: Option<string>) => !Text.IsNullOrWhiteSpace(o)

  /** The kept parameters as the non-null values they are. */
  function Somes(r: seq<string>): (s: seq<Option<string>>)
    ensures |s| == |r|
    ensures forall i :: 0 <= i < |r| ==> s[i] == Some(r[i])
  {
    seq(|r|, i requires 0 <= i < |r| => Some(r[i]))
  }

  /** `NonBlank` is `Where(x => !string.IsNullOrWhiteSpace(x))`. */
  lemma {:induction false} NonBlankIsFilter(ps: seq<Option<string>>)
    ensures Somes(NonBlank(ps)) == Seqs.Filter(ps, Usable)
    decreases |ps|
  {
    if |ps| > 0 {
      NonBlankIsFilter(ps[1..]);
      if !Text.IsNullOrWhiteSpace(ps[0]) {
        assert Somes(NonBlank(ps)) == [ps[0]] + Somes(NonBlank(ps[1..]));
      }
    }
  }

  /** The kept parameters keep their order, and each one occurs exactly as
      often as in the input. */
  lemma NonBlankOrder(ps: seq<Option<string>>, x: string)
    ensures Seqs.IsSubsequence(Somes(NonBlank(ps)), ps)
    ensures multiset(Somes(NonBlank(ps)))[Some(x)]
            == if !Text.IsNullOrWhiteSpace(Some(x)) then multiset(ps)[Some(x)] else 0
  {
    NonBlankIsFilter(ps);
    Seqs.FilterIsSubsequence(ps, Usable);
    Seqs.FilterMultiplicity(ps, Usable, Some(x));
  }

  /** The parameter list of `OpenInBrowser`: the non-blank parameters, then
      the url last. */
  function BrowserArguments(parameters: Option<seq<Option<string>>>, url: string): (r: seq<string>)
    ensures |r| > 0 && r[|r| - 1] == url
    ensures parameters.None? ==> r == [url]
    ensures parameters.Some? ==> r[..|r| - 1] == NonBlank(parameters.value)
  {
    (if parameters.Some? then NonBlank(parameters.value) else []) + [url]
  }

  /** `OpenInBrowser`: the resolved browser with the kept parameters and the
      url; with no browser at all, the url is opened like a file. */
  function OpenInBrowser(url: string, isFrontEnd: bool, browser: Option<string>,
                         parameters: Option<seq<Option<string>>>, settings: BrowserSettings): (r: Launch)
    ensures Text.IsNullOrEmpty(ResolveBrowser(isFrontEnd, browser, settings)) ==> r == OpenFile(url)
    ensures !Text.IsNullOrEmpty(ResolveBrowser(isFrontEnd, browser, settings)) ==>
              r == RunApp(ResolveBrowser(isFrontEnd, browser, settings).value, BrowserArguments(parameters, url))
  {
    var app := ResolveBrowser(isFrontEnd, browser, settings);
    if !Text.IsNullOrEmpty(app) then RunApp(app.value, BrowserArguments(parameters, url))
    else OpenFile(url)
  }

  /** With a browser and at least one kept parameter, the url's rendering
      closes the argument string after one separating space. */
  lemma BrowserUrlComesLast(url: string, isFrontEnd: bool, browser: Option<string>,
                            parameters: Option<seq<Option<string>>>, settings: BrowserSettings)
    requires !Text.IsNullOrEmpty(ResolveBrowser(isFrontEnd, browser, settings))
    requires parameters.Some? && |NonBlank(parameters.value)| > 0
    ensures OpenInBrowser(url, isFrontEnd, browser, parameters, settings).arguments
            == RenderArguments(NonBlank(parameters.value)) + " " + QuoteArgument(url)
  {
    RenderArgumentsSnoc(NonBlank(parameters.value), url);
  }
}
