/** Operator configuration overrides: the environment variables, volumes and
    volume mounts that an operator's owner Subscription asks OLM to add to the
    operator's deployment. The Subscription lister is an input: the model takes
    what it returned for the owner CSV's namespace. */
module Overrides {
  import opened Wrappers

  datatype EnvVar = EnvVar(name: string, value: string)
  datatype Volume = Volume(name: string, source: string)
  datatype VolumeMount = VolumeMount(name: string, mountPath: string)

  /** Spec.Config of a Subscription. */
  datatype SubscriptionConfig = SubscriptionConfig(
    env: seq<EnvVar>, volumes: seq<Volume>, volumeMounts: seq<VolumeMount>)

  datatype Subscription = Subscription(
    name: string, namespace: string, installedCSV: string, config: SubscriptionConfig)

  /** The owner CSV, as far as the lookup reads it. */
  datatype Owner = Owner(name: string, namespace: string)

  datatype OverridesError = ListFailed(namespace: string, cause: string)

  /** The four named results of GetConfigOverrides. */
  datatype ConfigOverrides = ConfigOverrides(
    envVarOverrides: seq<EnvVar>,
    volumeOverrides: seq<Volume>,
    volumeMountOverrides: seq<VolumeMount>,
    err: Option<OverridesError>)

  /** findOwner: the first subscription, in list order, whose Status.InstalledCSV
      is the owner's name; None when there is none. */
  function FindOwner(list: seq<Subscription>, owner: Owner): (r: Option<Subscription>)
    ensures r.Some? ==> exists i :: 0 <= i < |list| && list[i] == r.value
                          && r.value.installedCSV == owner.name
                          && forall j :: 0 <= j < i ==> list[j].installedCSV != owner.name
    ensures r.None? <==> forall i :: 0 <= i < |list| ==> list[i].installedCSV != owner.name
  {
    if |list| == 0 then None
    else if list[0].installedCSV == owner.name then Some(list[0])
    else
      var rest := FindOwner(list[1..], owner);
      assert forall i :: 1 <= i < |list| ==> list[i] == list[1..][i - 1];
      rest
  }

  /** GetConfigOverrides, given the outcome of listing the subscriptions of the
      owner's namespace. */
  function GetConfigOverrides(listed: Result<seq<Subscription>, string>, owner: Owner): (r: ConfigOverrides)
    ensures listed.Err? ==>
      r == ConfigOverrides([], [], [], Some(ListFailed(owner.namespace, listed.error)))
    ensures listed.Ok? && FindOwner(listed.value, owner).None? ==>
      r == ConfigOverrides([], [], [], None)
    ensures listed.Ok? && FindOwner(listed.value, owner).Some? ==>
      var config := FindOwner(listed.value, owner).value.config;
      r == ConfigOverrides(config.env, config.volumes, config.volumeMounts, None)
  {
    match listed
    case Err(cause) => ConfigOverrides([], [], [], Some(ListFailed(owner.namespace, cause)))
    case Ok(list) =>
      match FindOwner(list, owner)
      case None => ConfigOverrides([], [], [], None)
      case Some(sub) => ConfigOverrides(sub.config.env, sub.config.volumes, sub.config.volumeMounts, None)
  }

  /** The error is set exactly when listing failed, and then every override list is empty. */
  lemma ErrorIffListFailed(listed: Result<seq<Subscription>, string>, owner: Owner)
    ensures GetConfigOverrides(listed, owner).err.Some? <==> listed.Err?
    ensures listed.Err? ==> var r := GetConfigOverrides(listed, owner);
      r.envVarOverrides == [] && r.volumeOverrides == [] && r.volumeMountOverrides == []
  {
  }

  /** Overrides come from a subscription of the list that installed the owner. */
  lemma OverridesComeFromOwner(list: seq<Subscription>, owner: Owner)
    requires GetConfigOverrides(Ok(list), owner).envVarOverrides != []
    ensures exists i :: 0 <= i < |list| && list[i].installedCSV == owner.name
              && list[i].config.env == GetConfigOverrides(Ok(list), owner).envVarOverrides
  {
  }
}
