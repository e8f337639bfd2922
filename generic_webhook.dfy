/** The generic build webhook of OpenShift's build controller: given a
    BuildConfig, the secret from the hook URL and an HTTP request, Extract
    decides the source revision to build, the environment variables the
    payload may add, and whether a build should proceed at all.

    The helpers that live outside this file are parameters: the generic
    trigger policy that webhook.FindTriggerPolicy found (None when the config
    has none), webhook.GitRefMatches, mime.ParseMediaType and json.Unmarshal.
    Reading the body is given as its outcome. */
module GenericWebhook {
  import opened Wrappers

  datatype EnvVar = EnvVar(name: string, value: string)

  /** The generic part of a trigger policy. */
  datatype GenericTrigger = GenericTrigger(secret: string, allowEnv: bool)

  /** Spec.Source.Git of a BuildConfig. */
  datatype GitBuildSource = GitBuildSource(uri: string, ref: string)

  datatype BuildConfig = BuildConfig(
    namespace: string, name: string, git: Option<GitBuildSource>)

  datatype SourceControlUser = SourceControlUser(name: string, email: string)

  datatype GitSourceRevision = GitSourceRevision(
    commit: string, author: SourceControlUser, committer: SourceControlUser, message: string)

  /** One entry of the payload's git.refs. */
  datatype GitRefInfo = GitRefInfo(ref: string, revision: GitSourceRevision)

  /** The payload's git section. refs is None when the JSON had no refs (a
      nil slice) and Some([]) when it had an empty list. */
  datatype GitInfo = GitInfo(ref: string, revision: GitSourceRevision, refs: Option<seq<GitRefInfo>>)

  /** api.GenericWebHookEvent. */
  datatype GenericWebHookEvent = GenericWebHookEvent(git: Option<GitInfo>, env: seq<EnvVar>)

  /** What reading the request body gave: no body at all, a read error, or
      the bytes read. */
  datatype Body = NoBody | ReadFailed(cause: string) | Content(data: string)

  datatype Request = Request(httpMethod: string, contentType: string, body: Body)

  /** mime.ParseMediaType: the media type it returned, and its error if any. */
  datatype MediaType = MediaType(mediaType: string, err: Option<string>)

  datatype HookError =
    | ErrHookNotEnabled
    | ErrSecretMismatch
    | UnsupportedMethod(httpMethod: string)
    | NonParseableContentType(contentType: string, cause: string)
    | BodyReadError(cause: string)

  /** The four named results of Extract; an empty envvars stands for Go's nil. */
  datatype Extracted = Extracted(
    revision: Option<GitSourceRevision>, envvars: seq<EnvVar>, proceed: bool, err: Option<HookError>)

  const Post := "POST"
  const ApplicationJson := "application/json"

  /** verifyRequest: only POST requests are served. */
  function VerifyRequest(req: Request): (r: Option<HookError>)
    ensures r.None? <==> req.httpMethod == Post
    ensures r.Some? ==> r.value == UnsupportedMethod(req.httpMethod)
  {
    if req.httpMethod != Post then Some(UnsupportedMethod(req.httpMethod)) else None
  }

  /** The refs loop: the first ref, in payload order, that GitRefMatches the
      configured ref. */
  function FirstMatchingRef(refs: seq<GitRefInfo>, configRef: string,
                            gitRefMatches: (string, string) -> bool): (r: Option<GitRefInfo>)
    ensures r.Some? ==> exists i :: 0 <= i < |refs| && refs[i] == r.value
                          && gitRefMatches(refs[i].ref, configRef)
                          && forall j :: 0 <= j < i ==> !gitRefMatches(refs[j].ref, configRef)
    ensures r.None? <==> forall i :: 0 <= i < |refs| ==> !gitRefMatches(refs[i].ref, configRef)
  {
    if |refs| == 0 then None
    else if gitRefMatches(refs[0].ref, configRef) then Some(refs[0])
    else
      var rest := FirstMatchingRef(refs[1..], configRef, gitRefMatches);
      assert forall i :: 1 <= i < |refs| ==> refs[i] == refs[1..][i - 1];
      if rest.Some? then
        var k :| 0 <= k < |refs[1..]| && refs[1..][k] == rest.value
                 && gitRefMatches(refs[1..][k].ref, configRef)
                 && forall j :: 0 <= j < k ==> !gitRefMatches(refs[1..][j].ref, configRef);
        assert refs[k + 1] == rest.value;
        rest
      else rest
  }

  /** The decision on a parsed payload (lines 71-98): envvars taken from the
      payload when allowed, then the git section matched against the
      configured ref. */
  function FromPayload(data: GenericWebHookEvent, trigger: GenericTrigger, configRef: string,
                       gitRefMatches: (string, string) -> bool): (r: Extracted)
    ensures r.err.None?
    ensures r.envvars == if |data.env| > 0 && trigger.allowEnv then data.env else []
    ensures r.revision.Some? ==> r.proceed
  {
    var envvars := if |data.env| > 0 && trigger.allowEnv then data.env else [];
    if data.git.None? then Extracted(None, envvars, true, None)
    else
      var info := data.git.value;
      if info.refs.Some? then
        var m := FirstMatchingRef(info.refs.value, configRef, gitRefMatches);
        if m.Some? then Extracted(Some(m.value.revision), envvars, true, None)
        else Extracted(None, envvars, false, None)
      else if !gitRefMatches(info.ref, configRef) then Extracted(None, envvars, false, None)
      else Extracted(Some(info.revision), envvars, true, None)
  }

  /** WebHookPlugin.Extract. */
  function Extract(config: BuildConfig, trigger: Option<GenericTrigger>, secret: string, req: Request,
                   parseMediaType: string -> MediaType,
                   unmarshal: string -> Result<GenericWebHookEvent, string>,
                   gitRefMatches: (string, string) -> bool): (r: Extracted)
    ensures r.err.Some? ==> !r.proceed && r.revision.None?
    ensures r.revision.Some? ==> r.proceed && r.err.None?
    ensures r.envvars != [] ==> trigger.Some? && trigger.value.allowEnv
  {
    if trigger.None? then Extracted(None, [], false, Some(ErrHookNotEnabled))
    else if trigger.value.secret != secret then Extracted(None, [], false, Some(ErrSecretMismatch))
    else if VerifyRequest(req).Some? then Extracted(None, [], false, VerifyRequest(req))
    else if config.git.None? then Extracted(None, [], true, None)
    else
      var parsed := if |req.contentType| != 0 then parseMediaType(req.contentType) else MediaType(req.contentType, None);
      if parsed.err.Some? then
        Extracted(None, [], false, Some(NonParseableContentType(parsed.mediaType, parsed.err.value)))
      else if req.body.NoBody? || parsed.mediaType != ApplicationJson then Extracted(None, [], true, None)
      else
        match req.body
        case ReadFailed(cause) => Extracted(None, [], false, Some(BodyReadError(cause)))
        case Content(data) =>
          if |data| == 0 then Extracted(None, [], true, None)
          else
            match unmarshal(data)
            case Err(_) => Extracted(None, [], true, None)
            case Ok(event) => FromPayload(event, trigger.value, config.git.value.ref, gitRefMatches)
  }

  /** A request that gets past the guards: a generic trigger whose secret is
      the one given, a POST, and a git source on the config. */
  predicate PassesGuards(config: BuildConfig, trigger: Option<GenericTrigger>, secret: string, req: Request)
  {
    trigger.Some? && trigger.value.secret == secret && req.httpMethod == Post && config.git.Some?
  }

  /** The content type routes the request to the JSON payload. */
  predicate JsonBody(req: Request, parseMediaType: string -> MediaType)
  {
    |req.contentType| != 0
    && parseMediaType(req.contentType).err.None?
    && parseMediaType(req.contentType).mediaType == ApplicationJson
  }

  /** Without a generic trigger the hook is not enabled, whatever the request. */
  lemma NoTriggerNotEnabled(config: BuildConfig, secret: string, req: Request,
                            parseMediaType: string -> MediaType,
                            unmarshal: string -> Result<GenericWebHookEvent, string>,
                            gitRefMatches: (string, string) -> bool)
    ensures Extract(config, None, secret, req, parseMediaType, unmarshal, gitRefMatches)
            == Extracted(None, [], false, Some(ErrHookNotEnabled))
  {
  }

  /** A wrong secret is reported before the request is looked at: the HTTP
      method does not matter. */
  lemma SecretCheckedBeforeRequest(config: BuildConfig, trigger: GenericTrigger, secret: string, req: Request,
                                   parseMediaType: string -> MediaType,
                                   unmarshal: string -> Result<GenericWebHookEvent, string>,
                                   gitRefMatches: (string, string) -> bool)
    requires trigger.secret != secret
    ensures Extract(config, Some(trigger), secret, req, parseMediaType, unmarshal, gitRefMatches)
            == Extracted(None, [], false, Some(ErrSecretMismatch))
  {
  }

  /** With the right secret, anything but POST is an unsupported method, and
      a POST is never refused for its method. */
  lemma OnlyPost(config: BuildConfig, trigger: GenericTrigger, req: Request,
                 parseMediaType: string -> MediaType,
                 unmarshal: string -> Result<GenericWebHookEvent, string>,
                 gitRefMatches: (string, string) -> bool)
    ensures var r := Extract(config, Some(trigger), trigger.secret, req, parseMediaType, unmarshal, gitRefMatches);
      (req.httpMethod != Post <==> r.err == Some(UnsupportedMethod(req.httpMethod)))
      && (req.httpMethod != Post ==> !r.proceed)
  {
  }

  /** A config without a git source triggers with no revision. */
  lemma NoGitSourceProceeds(config: BuildConfig, trigger: GenericTrigger, req: Request,
                            parseMediaType: string -> MediaType,
                            unmarshal: string -> Result<GenericWebHookEvent, string>,
                            gitRefMatches: (string, string) -> bool)
    requires config.git.None? && req.httpMethod == Post
    ensures Extract(config, Some(trigger), trigger.secret, req, parseMediaType, unmarshal, gitRefMatches)
            == Extracted(None, [], true, None)
  {
  }

  /** An unparseable Content-Type stops the hook; its message carries what
      ParseMediaType returned, not the header itself. */
  lemma BadContentTypeRefused(config: BuildConfig, trigger: Option<GenericTrigger>, secret: string, req: Request,
                              parseMediaType: string -> MediaType,
                              unmarshal: string -> Result<GenericWebHookEvent, string>,
                              gitRefMatches: (string, string) -> bool)
    requires PassesGuards(config, trigger, secret, req) && |req.contentType| != 0
    requires parseMediaType(req.contentType).err.Some?
    ensures Extract(config, trigger, secret, req, parseMediaType, unmarshal, gitRefMatches)
            == Extracted(None, [], false, Some(NonParseableContentType(
                 parseMediaType(req.contentType).mediaType, parseMediaType(req.contentType).err.value)))
  {
  }

  /** A request that is not JSON, or has no body, triggers with no revision. */
  lemma NonJsonProceeds(config: BuildConfig, trigger: Option<GenericTrigger>, secret: string, req: Request,
                        parseMediaType: string -> MediaType,
                        unmarshal: string -> Result<GenericWebHookEvent, string>,
                        gitRefMatches: (string, string) -> bool)
    requires PassesGuards(config, trigger, secret, req)
    requires |req.contentType| != 0 ==> parseMediaType(req.contentType).err.None?
    requires !JsonBody(req, parseMediaType) || req.body.NoBody?
    ensures Extract(config, trigger, secret, req, parseMediaType, unmarshal, gitRefMatches)
            == Extracted(None, [], true, None)
  {
  }

  /** A JSON body that is empty, or that does not unmarshal, triggers with no
      revision; one that cannot be read stops the hook with the read error. */
  lemma BodyOutcomes(config: BuildConfig, trigger: Option<GenericTrigger>, secret: string, req: Request,
                     parseMediaType: string -> MediaType,
                     unmarshal: string -> Result<GenericWebHookEvent, string>,
                     gitRefMatches: (string, string) -> bool)
    requires PassesGuards(config, trigger, secret, req) && JsonBody(req, parseMediaType)
    ensures var r := Extract(config, trigger, secret, req, parseMediaType, unmarshal, gitRefMatches);
      (req.body.ReadFailed? ==> r == Extracted(None, [], false, Some(BodyReadError(req.body.cause))))
      && (req.body.Content? && |req.body.data| == 0 ==> r == Extracted(None, [], true, None))
      && (req.body.Content? && unmarshal(req.body.data).Err? ==> r == Extracted(None, [], true, None))
  {
  }

  /** On a parsed payload, Extract decides as FromPayload does. */
  lemma PayloadDecides(config: BuildConfig, trigger: Option<GenericTrigger>, secret: string, req: Request,
                       parseMediaType: string -> MediaType,
                       unmarshal: string -> Result<GenericWebHookEvent, string>,
                       gitRefMatches: (string, string) -> bool)
    requires PassesGuards(config, trigger, secret, req) && JsonBody(req, parseMediaType)
    requires req.body.Content? && |req.body.data| != 0 && unmarshal(req.body.data).Ok?
    ensures Extract(config, trigger, secret, req, parseMediaType, unmarshal, gitRefMatches)
            == FromPayload(unmarshal(req.body.data).value, trigger.value, config.git.value.ref, gitRefMatches)
  {
  }

  /** Payload env vars are returned exactly when there are some and the
      trigger allows them; otherwise none are. */
  lemma EnvOnlyWhenAllowed(data: GenericWebHookEvent, trigger: GenericTrigger, configRef: string,
                           gitRefMatches: (string, string) -> bool)
    ensures var r := FromPayload(data, trigger, configRef, gitRefMatches);
      (r.envvars == data.env <==> (trigger.allowEnv || |data.env| == 0))
      && (r.envvars != [] <==> |data.env| > 0 && trigger.allowEnv)
  {
  }

  /** A payload without git information triggers with no revision. */
  lemma NoGitInfoProceeds(data: GenericWebHookEvent, trigger: GenericTrigger, configRef: string,
                          gitRefMatches: (string, string) -> bool)
    requires data.git.None?
    ensures var r := FromPayload(data, trigger, configRef, gitRefMatches);
      r.proceed && r.revision.None?
  {
  }

  /** With a refs list, the build proceeds exactly when some ref matches,
      and then with the revision of the first matching ref. An empty list
      never proceeds. */
  lemma RefsListFirstMatch(data: GenericWebHookEvent, trigger: GenericTrigger, configRef: string,
                           gitRefMatches: (string, string) -> bool)
    requires data.git.Some? && data.git.value.refs.Some?
    ensures var refs := data.git.value.refs.value;
      var r := FromPayload(data, trigger, configRef, gitRefMatches);
      (r.proceed <==> exists i :: 0 <= i < |refs| && gitRefMatches(refs[i].ref, configRef))
      && (r.proceed ==> exists i :: 0 <= i < |refs| && gitRefMatches(refs[i].ref, configRef)
                         && r.revision == Some(refs[i].revision)
                         && forall j :: 0 <= j < i ==> !gitRefMatches(refs[j].ref, configRef))
      && (!r.proceed ==> r.revision.None?)
  {
    var refs := data.git.value.refs.value;
    var m := FirstMatchingRef(refs, configRef, gitRefMatches);
    if m.None? {
      assert forall i :: 0 <= i < |refs| ==> !gitRefMatches(refs[i].ref, configRef);
    }
  }

  /** Without a refs list, the single ref decides: a match proceeds with the
      payload's revision, a mismatch does not proceed. */
  lemma SingleRefMatch(data: GenericWebHookEvent, trigger: GenericTrigger, configRef: string,
                       gitRefMatches: (string, string) -> bool)
    requires data.git.Some? && data.git.value.refs.None?
    ensures var r := FromPayload(data, trigger, configRef, gitRefMatches);
      (r.proceed <==> gitRefMatches(data.git.value.ref, configRef))
      && (r.proceed ==> r.revision == Some(data.git.value.revision))
      && (!r.proceed ==> r.revision.None?)
  {
  }
}
