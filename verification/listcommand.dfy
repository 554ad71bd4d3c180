/** The `list` command: which instances are shown, and how.

    Instance discovery (`InstanceManager`) and `Profile.Read` are not part of
    this model: the instances and the instances folder the command-layer
    profile reads (possibly null) are inputs. An instance keeps
    only the two fields the filters look at. */
module ListCommand {
  import opened Basics
  import Text
  import Seqs

  datatype Instance = Instance(name: string, rootPath: string)

  /** A detailed record; only the instance name is modelled. */
  datatype InstanceInfo = InstanceInfo(name: string)

  datatype ListResult = Names(names: seq<string>) | Details(infos: seq<InstanceInfo>)

  /** The command's switches: `Filter` (nullable), `Detailed`, `Everywhere`. */
  datatype Options = Options(filter: Option<string>, detailed: bool, everywhere: bool)

  /** `Filter ?? string.Empty`. */
  function EffectiveFilter(filter: Option<string>): (r: string)
    ensures filter.Some? ==> r == filter.value
    ensures filter.None? ==> r == ""
  {
    if filter.Some? then filter.value else ""
  }

  /** The root restriction: null unless `Everywhere` is set, in which case it
      is the profile's instances folder, null or not. */
  function Root(everywhere: bool, instancesFolder: Option<string>): (r: Option<string>)
    ensures !everywhere ==> r.None?
    ensures everywhere ==> r == instancesFolder
  {
    if !everywhere then None else instancesFolder
  }

  predicate NameMatches(filter: string, x: Instance) {
    Text.IsNullOrEmpty(Some(filter)) || Text.ContainsIgnoreCase(x.name, filter)
  }

  predicate RootMatches(root: Option<string>, x: Instance) {
    Text.IsNullOrEmpty(root) || Text.ContainsIgnoreCase(x.rootPath, root.value)
  }

  /** The name stage's test: lower-cased name contains lower-cased filter. */
  function NameTest(filter: string): Instance -> bool {
    (x: Instance) => Text.ContainsIgnoreCase(x.name, filter)
  }

  /** The root stage's test: lower-cased root path contains lower-cased root. */
  function RootTest(root: string): Instance -> bool {
    (x: Instance) => Text.ContainsIgnoreCase(x.rootPath, root)
  }

  /** The name stage: skipped for an empty filter, otherwise keeps the
      instances whose lower-cased name contains the lower-cased filter. */
  function NameStage(instances: seq<Instance>, filter: string): seq<Instance> {
    if Text.IsNullOrEmpty(Some(filter)) then instances
    else Seqs.Filter(instances, NameTest(filter))
  }

  /** The root stage: skipped for a null or empty root, otherwise keeps the
      instances whose lower-cased root path contains the lower-cased root. */
  function RootStage(instances: seq<Instance>, root: Option<string>): seq<Instance> {
    if Text.IsNullOrEmpty(root) then instances
    else Seqs.Filter(instances, RootTest(root.value))
  }

  /** The instances that survive both stages, in their original order. */
  function Survivors(opts: Options, instancesFolder: Option<string>, instances: seq<Instance>): seq<Instance> {
    RootStage(NameStage(instances, EffectiveFilter(opts.filter)), Root(opts.everywhere, instancesFolder))
  }

  /** `DoExecute`: the survivors' names, or one detail record per survivor. */
  function DoExecute(opts: Options, instancesFolder: Option<string>, instances: seq<Instance>): (r: ListResult)
    ensures r.Names? <==> !opts.detailed
    ensures r.Names? ==> |r.names| == |Survivors(opts, instancesFolder, instances)|
    ensures r.Names? ==> forall i :: 0 <= i < |r.names| ==> r.names[i] == Survivors(opts, instancesFolder, instances)[i].name
    ensures r.Details? ==> |r.infos| == |Survivors(opts, instancesFolder, instances)|
    ensures r.Details? ==> forall i :: 0 <= i < |r.infos| ==> r.infos[i].name == Survivors(opts, instancesFolder, instances)[i].name
  {
    var kept := Survivors(opts, instancesFolder, instances);
    if opts.detailed then Details(seq(|kept|, i requires 0 <= i < |kept| => InstanceInfo(kept[i].name)))
    else Names(seq(|kept|, i requires 0 <= i < |kept| => kept[i].name))
  }

  /** A null filter behaves exactly like the empty filter. */
  lemma NullFilterIsEmptyFilter(detailed: bool, everywhere: bool, instancesFolder: Option<string>, instances: seq<Instance>)
    ensures DoExecute(Options(None, detailed, everywhere), instancesFolder, instances)
         == DoExecute(Options(Some(""), detailed, everywhere), instancesFolder, instances)
  {
  }

  /** What the name stage keeps: the instances passing the name test,
      each exactly as often as before, in their original order. */
  lemma NameStageKeeps(instances: seq<Instance>, filter: string, x: Instance)
    ensures x in NameStage(instances, filter) <==> x in instances && NameMatches(filter, x)
    ensures multiset(NameStage(instances, filter))[x] == if NameMatches(filter, x) then multiset(instances)[x] else 0
    ensures Seqs.IsSubsequence(NameStage(instances, filter), instances)
  {
    if Text.IsNullOrEmpty(Some(filter)) {
      Seqs.SubsequenceOfSelf(instances);
    } else {
      Seqs.FilterMembership(instances, NameTest(filter), x);
      Seqs.FilterMultiplicity(instances, NameTest(filter), x);
      Seqs.FilterIsSubsequence(instances, NameTest(filter));
    }
  }

  /** What the root stage keeps, in the same terms. */
  lemma RootStageKeeps(instances: seq<Instance>, root: Option<string>, x: Instance)
    ensures x in RootStage(instances, root) <==> x in instances && RootMatches(root, x)
    ensures multiset(RootStage(instances, root))[x] == if RootMatches(root, x) then multiset(instances)[x] else 0
    ensures Seqs.IsSubsequence(RootStage(instances, root), instances)
  {
    if Text.IsNullOrEmpty(root) {
      Seqs.SubsequenceOfSelf(instances);
    } else {
      Seqs.FilterMembership(instances, RootTest(root.value), x);
      Seqs.FilterMultiplicity(instances, RootTest(root.value), x);
      Seqs.FilterIsSubsequence(instances, RootTest(root.value));
    }
  }

  /** An instance is listed exactly when it is one of the input instances and
      passes both the name filter and the root filter; such an instance is
      listed exactly as often as it occurs, and the input order is kept. */
  lemma SurvivorsCharacterised(opts: Options, instancesFolder: Option<string>, instances: seq<Instance>, x: Instance)
    ensures x in Survivors(opts, instancesFolder, instances) <==>
            x in instances && NameMatches(EffectiveFilter(opts.filter), x)
                           && RootMatches(Root(opts.everywhere, instancesFolder), x)
    ensures multiset(Survivors(opts, instancesFolder, instances))[x]
            == if NameMatches(EffectiveFilter(opts.filter), x) && RootMatches(Root(opts.everywhere, instancesFolder), x)
               then multiset(instances)[x] else 0
    ensures Seqs.IsSubsequence(Survivors(opts, instancesFolder, instances), instances)
  {
    var named := NameStage(instances, EffectiveFilter(opts.filter));
    NameStageKeeps(instances, EffectiveFilter(opts.filter), x);
    RootStageKeeps(named, Root(opts.everywhere, instancesFolder), x);
    Seqs.SubsequenceTransitive(Survivors(opts, instancesFolder, instances), named, instances);
  }

  /** Without `Everywhere`, or with an empty instances folder, the root stage
      removes nothing. */
  lemma RootStageInert(opts: Options, instancesFolder: Option<string>, instances: seq<Instance>)
    requires !opts.everywhere || Text.IsNullOrEmpty(instancesFolder)
    ensures Survivors(opts, instancesFolder, instances) == NameStage(instances, EffectiveFilter(opts.filter))
  {
  }
}
