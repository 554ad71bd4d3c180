# Sitecore Instance Manager: step construction, instance listing, app helpers and profiles

A Dafny model of four small, pure pieces of the Sitecore Instance Manager (SIM):

- **Step construction** (`Step`, `Step.CreateSteps`): the builder half of SIM's
  pipeline engine. It turns an ordered list of step definitions into an ordered
  list of steps, one per definition. An empty args name is folded into "no
  override", and the processors come from the processor factory.
- **The `list` command** (`ListCommand.DoExecute`): an optional case-insensitive
  name filter, then an optional root-path filter taken from the instances
  folder of the command-layer profile. The result is either the surviving instances' names or one
  detail record per survivor.
- **`CoreApp` helpers**: first-run and update detection from the `last-run.txt`
  and `first-run.txt` marker files, recording the running version, quoting of
  `RunApp` parameters, the argument list of `OpenInBrowser`, and the slash
  rewrite of `OpenFile`.
- **The tool profile** (`Profile`): five string properties over a key/value
  store. Getters default to "", setters reject null, `Clone` copies four of the
  five properties, and the two validators are modelled too.

Modules: `Basics` (nullable values, results, errors), `Seqs` (order-preserving
filtering and subsequences), `Text` (the .NET string operations used:
`IsNullOrEmpty`, `IsNullOrWhiteSpace`, `ToLowerInvariant`, `Contains`, `Trim`,
`Replace`, `Join`), `Pipelines`, `ListCommand`, `CoreApp` and `Profiles`.

Modelling conventions:
- A C# reference that may be null is an `Option` (`None` is null).
- A thrown `ArgumentNullException` or assertion failure is a `Failure` or `Fail`
  value that names the error.
- The file system seen by `CoreApp` is a map from file name to contents.
- Starting a process is the `Launch(app, arguments)` value passed to
  `Process.Start`.
- Processor definitions, processors, args and controllers are type parameters.
  The processor factory `ProcessorManager.CreateProcessors` is not part of this
  model, so it is passed in as an uninterpreted function.

`CreateSteps` does not reject a step definition for being malformed: it checks
only that the definition list and the args are non-null. Any other failure
would come from the factory, which is not modelled.

## Model

| member | source | states |
|---|---|---|
| Pipelines.NewStep | src/SIM.Base/Pipelines/Step.cs:27-33 | A null processor list is rejected with an argument-null error. Otherwise the step holds exactly the given processors and args name. |
| Pipelines.CreateStepsPrivate | src/SIM.Base/Pipelines/Step.cs:53-65 | One step per definition, in the same order. Step i's processors are the factory's output for definition i, with the same args and controller for every step. The args name is absent iff the declared name is null or "", and otherwise it is the declared name, unchanged. |
| Pipelines.CreateSteps | src/SIM.Base/Pipelines/Step.cs:40-46 | Null definitions, then null args, are rejected with argument-null errors. Otherwise the build succeeds with exactly the steps `CreateStepsPrivate` yields, in order: one step per definition, step i holding the factory's processors for definition i, with an args name absent iff the declared one is null or "". No definitions give no steps. |
| Pipelines.CreateStepsAppend | src/SIM.Base/Pipelines/Step.cs:58-64 | Building concatenated definition lists gives the concatenation of the separately built step lists, so each step depends only on its own definition. |
| Text.EmptyToNull | src/SIM.Base/Pipelines/Step.cs:60 | Null and "" become null. Any other string is kept unchanged. |
| ListCommand.EffectiveFilter | src/SIM.Core/Commands/ListCommand.cs:24 | A null filter becomes "". A given filter is used as is. |
| ListCommand.Root | src/SIM.Core/Commands/ListCommand.cs:25 | Without `Everywhere` there is no root restriction. With it, the restriction is the profile's instances folder, which may itself be null. |
| ListCommand.NullFilterIsEmptyFilter | src/SIM.Core/Commands/ListCommand.cs:24 | A null filter produces exactly the same listing as the empty filter. |
| ListCommand.NameStageKeeps | src/SIM.Core/Commands/ListCommand.cs:30-33 | With an empty filter nothing is removed. Otherwise an instance is kept iff its lower-cased name contains the lower-cased filter. A kept instance occurs exactly as often as in the input, and order is kept. |
| ListCommand.RootStageKeeps | src/SIM.Core/Commands/ListCommand.cs:35-38 | With a null or empty root nothing is removed. Otherwise an instance is kept iff its lower-cased root path contains the lower-cased root. A kept instance occurs exactly as often as in the input, and order is kept. |
| ListCommand.SurvivorsCharacterised | src/SIM.Core/Commands/ListCommand.cs:29-38 | An instance is listed iff it is an input instance that passes both filters. The listing is a subsequence of the input. An instance passing both filters appears exactly as often as in the input, and any other instance not at all. |
| ListCommand.RootStageInert | src/SIM.Core/Commands/ListCommand.cs:25-38 | Without `Everywhere`, or with an empty instances folder, the result is exactly the name stage's output. |
| ListCommand.DoExecute | src/SIM.Core/Commands/ListCommand.cs:42-58 | Non-detailed mode gives exactly the survivors' names, in order. Detailed mode gives one record per survivor, in order, carrying its name. |
| Seqs.FilterIsSubsequence | src/SIM.Core/Commands/ListCommand.cs:32 | What `Where` keeps is a subsequence of its input. |
| Seqs.FilterMultiplicity | src/SIM.Core/Commands/ListCommand.cs:37 | A kept value occurs as often as in the input. A rejected value does not occur. |
| Text.ContainsIffOccurs | src/SIM.Core/Commands/ListCommand.cs:32 | The left-to-right substring scan succeeds iff the needle occurs at some offset of the haystack. |
| Text.ToLower | src/SIM.Core/Commands/ListCommand.cs:32 | Lower-casing keeps the length, maps each character on its own, and leaves no upper-case ASCII letter behind. |
| CoreApp.IsVeryFirstRun | src/SIM.Core/CoreApp.cs:23-35 | An existing last-run file rules out a very first run. Without it, the run is a very first run iff the first-run file exists. A very first run has no recorded version. |
| CoreApp.HasBeenUpdated | src/SIM.Core/CoreApp.cs:37-43 | The run is an update iff the application version and the recorded version differ other than in ASCII letter case. In particular, an equal version is not an update, and without a last-run file the run is an update iff the application version is non-empty. |
| CoreApp.PreviousVersion | src/SIM.Core/CoreApp.cs:45-56 | The result is "" without a last-run file. Otherwise it is a contiguous slice of the file's contents. Everything cut off on either side is a space, CR or LF, and the slice neither starts nor ends with one. |
| Text.Trim | src/SIM.Core/CoreApp.cs:54 | The result is a slice of the input. Everything cut off on either side is in the trim set, and the result's first and last characters are not. |
| CoreApp.PreviousVersionIsTrimmed | src/SIM.Core/CoreApp.cs:54 | Trimming the recorded version again changes nothing. |
| CoreApp.FirstRunIsUpdate | src/SIM.Core/CoreApp.cs:23-54 | A very first run has no recorded version. It counts as updated iff the application version is non-empty. |
| CoreApp.WriteLastRunVersion | src/SIM.Core/CoreApp.cs:58-61 | The last-run file then holds the application version. No other file appears, disappears or changes its contents. |
| CoreApp.RecordedVersionIsCurrent | src/SIM.Core/CoreApp.cs:23-61 | For a version without leading or trailing spaces, CR or LF: after the version is recorded, the next start is not a very first run, reads back the same version, and is not an update. |
| CoreApp.UpdateIgnoresCase | src/SIM.Core/CoreApp.cs:37-61 | After a lower-cased copy of a version without surrounding padding is recorded, that version does not count as an update: the comparison ignores case. |
| CoreApp.QuoteText | src/SIM.Core/CoreApp.cs:172 | A text without surrounding quotes is wrapped in double quotes iff it contains a space or `=`. A wrapped result holds exactly the text between its quotes, and an unwrapped result is the text itself. |
| CoreApp.QuoteArgument | src/SIM.Core/CoreApp.cs:172 | With x the parameter trimmed of double quotes: the rendering is wrapped in double quotes iff x contains a space or `=`. It is then exactly x between quotes, and otherwise x itself. |
| CoreApp.QuoteTextUnquotes | src/SIM.Core/CoreApp.cs:172 | Trimming the double quotes off a quoted text gives the text back. |
| CoreApp.QuoteArgumentUnquotes | src/SIM.Core/CoreApp.cs:172 | The rendered parameter, trimmed of double quotes, equals the input trimmed of double quotes. |
| CoreApp.QuoteIgnoresSurroundingQuotes | src/SIM.Core/CoreApp.cs:172 | A parameter already surrounded by double quotes renders exactly as the bare parameter. |
| CoreApp.QuoteArgumentIdempotent | src/SIM.Core/CoreApp.cs:172 | Rendering an already rendered parameter changes nothing. |
| CoreApp.RenderArgumentsSnoc | src/SIM.Core/CoreApp.cs:172 | Adding a parameter at the end adds one space and its rendering at the end, so order is kept. |
| CoreApp.RenderArgumentsLength | src/SIM.Core/CoreApp.cs:172 | n parameters give a string of the rendered lengths plus n-1 separators. |
| Text.JoinLength | src/SIM.Core/CoreApp.cs:172 | Joining n parts adds exactly n-1 separators. |
| CoreApp.RunApp | src/SIM.Core/CoreApp.cs:165-179 | The given app is started with the parameters' renderings joined by single spaces. One parameter yields exactly its rendering, and no parameters yield an empty argument string. |
| CoreApp.ToBackslashes | src/SIM.Core/CoreApp.cs:142 | Every `/` becomes `\`, every other character is unchanged, and no `/` is left. |
| Text.ReplaceChar | src/SIM.Core/CoreApp.cs:142 | The length is kept. Each character equal to the replaced one becomes the replacement, and all others are unchanged. |
| CoreApp.OpenFile | src/SIM.Core/CoreApp.cs:140-148 | Explorer is started, and its one argument is the rendered path with slashes rewritten. |
| CoreApp.ResolveBrowser | src/SIM.Core/CoreApp.cs:152 | A non-empty explicit browser wins. Otherwise the front-end or back-end setting is used. |
| CoreApp.NonBlank | src/SIM.Core/CoreApp.cs:155 | No kept parameter is null, empty or white space, and at most as many parameters are kept as given. |
| CoreApp.NonBlankKeeps | src/SIM.Core/CoreApp.cs:155 | A string is kept iff it was given and is not blank. |
| CoreApp.NonBlankIsFilter | src/SIM.Core/CoreApp.cs:155 | The kept parameters are exactly what `Where(x => !string.IsNullOrWhiteSpace(x))` yields. |
| CoreApp.NonBlankOrder | src/SIM.Core/CoreApp.cs:155 | The kept parameters are a subsequence of the given ones. A non-blank parameter is kept exactly as often as it was given, and a blank one never. |
| CoreApp.BrowserArguments | src/SIM.Core/CoreApp.cs:155-156 | The url comes last, after exactly the kept parameters. A null parameter array gives the url alone. |
| CoreApp.OpenInBrowser | src/SIM.Core/CoreApp.cs:150-163 | With a resolved browser, that browser is started with the kept parameters and the url. With none, the url is opened as a file. |
| CoreApp.BrowserUrlComesLast | src/SIM.Core/CoreApp.cs:155-157 | With a browser and kept parameters, the argument string ends with one space and the url's rendering. |
| Profiles.KeyInjective | src/SIM.Tool.Base/Profiles/Profile.cs:18-95 | The five properties use five distinct store keys. |
| Profiles.Get | src/SIM.Tool.Base/Profiles/Profile.cs:18-95 | A getter returns the stored value, or "" when nothing is stored. |
| Profiles.Set | src/SIM.Tool.Base/Profiles/Profile.cs:18-95 | A null value is rejected with an argument-null error. Otherwise the property reads back as the value and every other property is unchanged. |
| Profiles.Clone | src/SIM.Tool.Base/Profiles/Profile.cs:126-135 | The clone has the same connection string, instances folder, license and local repository. Its advanced settings read as "". |
| Profiles.CloneIdempotent | src/SIM.Tool.Base/Profiles/Profile.cs:126-135 | Cloning a clone gives the same store. |
| Profiles.CloneDropsAdvancedSettings | src/SIM.Tool.Base/Profiles/Profile.cs:126-135 | A profile with non-empty advanced settings differs from its clone. |
| Profiles.Save | src/SIM.Tool.Base/Profiles/Profile.cs:101-104 | Saving always fails with a not-implemented error. |
| Profiles.ValidateInstancesFolder | src/SIM.Tool.Base/Profiles/Profile.cs:106-110 | The emptiness error is raised iff the instances folder is "". Validation passes iff the folder is non-empty and exists. |
| Profiles.ValidateLicense | src/SIM.Tool.Base/Profiles/Profile.cs:112-116 | The "not set" error is raised iff the license is "". Validation passes iff the license is non-empty and its file exists. |
| Profiles.ValidateAfterClone | src/SIM.Tool.Base/Profiles/Profile.cs:106-135 | A clone passes or fails both validations exactly as the original does. |
| Profiles.ValidateAfterSetInstancesFolder | src/SIM.Tool.Base/Profiles/Profile.cs:18-110 | Setting a non-null instances folder succeeds. Validation then passes iff the folder is non-empty and exists, and an empty folder gives the emptiness error. |
| Profiles.ValidateAfterSetLicense | src/SIM.Tool.Base/Profiles/Profile.cs:18-116 | Setting a non-null license path succeeds. Validation then passes iff the path is non-empty and the file exists, and an empty path gives the "not set" error. |

## Left out

- `ProcessorManager.CreateProcessors` is not part of this model. It is an uninterpreted total function, so its configuration errors (unknown processor type, parameter binding, args type mismatch) are not modelled.
- The pipeline execution loop, `PipelineManager`, `ProcessorArgs` and `AggregatePipelineController` are not part of this model. They run the built steps and hold the registry of pipeline definitions; this model covers only how the steps are built.
- A null element inside the step definition list is not modelled. The source would throw a null-reference exception.
- `Assert.IsNotNull(step)` in `CreateStepsPrivate` always holds and is not modelled separately. `CreateStepsPrivate` yields lazily in the source and is materialised eagerly here, which changes nothing observable.
- `InstanceManager.Initialize`, the instance discovery behind `InstanceManager.Instances`, and `Profile.Read` are environment access. The instances and the instances folder of the command-layer profile (`SIM.Core.Common.Profile`, which is not part of this model) are inputs.
- Detailed records carry only the instance name. The ID, state, web root, and the `Null.Safe` folder, product, database and process-id fields are environment lookups.
- Instance names and root paths are non-null strings here. In the source, a null name throws a null-reference exception only when the name filter is active, and a null root path throws only when the root filter is active. With no filter, the non-detailed listing would contain the null name.
- Text.ToLower: models `ToLowerInvariant` on ASCII letters only, so full Unicode case mapping is left out. `HasBeenUpdated`'s `OrdinalIgnoreCase` comparison is modelled the same way.
- Logging in `CoreApp` is I/O and is not modelled. This covers `InitializeLogging`, `LogMainInfo`, `Exit` and the `ProfileSection`/`Log.Debug` calls in `RunApp`.
- `DeleteTempFolders`, `Process.Start` and the `RunApp(ProcessStartInfo)` overload are I/O. A started process is represented by the `Launch` value.
- File encodings in `File.ReadAllText` and `File.WriteAllText` are not modelled. File contents are taken as strings.
- A null `RunApp` parameter array, a null parameter inside it, a null url, or a null path given to `OpenFile`/`OpenFolder` is not modelled. Each makes the source throw.
- The browser settings `CoreAppSettings.AppBrowsersFrontend` and `AppBrowsersBackend` are settings lookups. They are inputs.
- `DataObject`'s store is a map that starts empty for a new profile. Its own persistence is not part of this model.
- `ValidateInstancesFolder` and `ValidateLicense` check file-system existence. That check is a predicate passed in.
- `InstallCommand` is glue around the profile, product lookup, SQL Server and `PipelineManager.StartPipeline`, and is left out.
