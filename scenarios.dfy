/** The cases of the community widget's test suite, replayed against the
    model. Each method starts from a fresh widget, performs the steps of one
    case and returns what that case observes; its postcondition is what the
    case expects, stated for every config rather than one sample.
 */
module CommunityWidgetSpec {
  import opened Config
  import opened Options
  import opened Widget

  /** A widget that has been rendered and then loaded with `c`. */
  method Loaded(c: Config) returns (w: CommunityWidget)
    ensures fresh(w) && w.Valid()
    ensures w.live == c && w.lastValidationConfig == None && w.result == None
    ensures !w.clientError && w.securityTypes == [] && !w.typesArrived
    ensures w.fetches == [] && w.validateEmitted == 0
    ensures w.options == OptionList([], c.loginType)
  {
    w := new CommunityWidget(c);
    w.UpdateConfig(c);
  }

  /** A widget loaded with `c` and validated successfully for it. */
  method Validated(c: Config) returns (w: CommunityWidget)
    ensures fresh(w) && w.Valid()
    ensures w.live == c && w.result == Some(Validation(c, true)) && !w.clientError
    ensures w.fetches == [TargetOf(c)] && !w.typesArrived
    ensures w.options == OptionList([], c.loginType)
  {
    w := Loaded(c);
    w.lastValidationConfig := Some(c);
    w.HandleValidation(c, true);
  }

  /** A widget validated for `c` that then received the fetched `types`. */
  method TypesArrived(c: Config, types: seq<string>) returns (w: CommunityWidget)
    ensures fresh(w) && w.Valid()
    ensures w.live == c && w.result == Some(Validation(c, true)) && !w.clientError
    ensures w.securityTypes == types && w.typesArrived && w.fetches == [TargetOf(c)]
    ensures w.options == OptionList(types, c.loginType)
    ensures w.SelectorEnabled()
  {
    w := Validated(c);
    w.SecurityTypesChanged(types);
    assert w.Applies();
  }

  /** Rendering shows no status and a disabled selector. */
  method ShouldRenderCorrectly(initial: Config) returns (status: RegionStatus, enabled: bool, fetchCount: nat)
    ensures status == Neutral && !enabled && fetchCount == 0
  {
    var w := new CommunityWidget(initial);
    status, enabled, fetchCount := w.Status(), w.SelectorEnabled(), |w.fetches|;
  }

  /** A non-community login type (the suite uses "cas" and "external"): after
      a successful validation and new types, the options are the types plus
      the selected login type, and the selector is enabled. */
  method NonCommunityLoginType(c: Config, types: seq<string>)
    returns (options: seq<string>, matches: bool, enabled: bool, config: Config)
    requires NoDups(types) && c.loginType !in types
    ensures options == types + [c.loginType]
    ensures matches && enabled && config == c
  {
    var w := TypesArrived(c, types);
    options, enabled, config := w.options, w.SelectorEnabled(), w.GetConfig();
    var expected := Union(types, [c.loginType]);
    UnionWithSelected(types, c.loginType);
    ContainsOptionsDistinct(options, expected);
    matches := ToContainOptions(options, expected);
  }

  /** getConfig after updateConfig gives back the same config, pass-through
      fields included, and the selector stays disabled. */
  method AfterConfigUpdate(c: Config) returns (config: Config, enabled: bool)
    ensures config == c && !enabled
  {
    var w := Loaded(c);
    config, enabled := w.GetConfig(), w.SelectorEnabled();
  }

  /** A failed validation shows the error status and fetches nothing. */
  method FailedValidation(c: Config) returns (status: RegionStatus, fetchCount: nat)
    ensures status == Error && fetchCount == 0
  {
    var w := Loaded(c);
    w.lastValidationConfig := Some(c);
    w.HandleValidation(c, false);
    status, fetchCount := w.Status(), |w.fetches|;
  }

  /** Client-side validation with an empty host: after a successful
      validation the host is cleared, validated, set to `other` and set back.
      Each step's region status and message visibility are returned. */
  method EmptyHostClientValidation(c: Config, other: string)
    returns (ok: bool, trace: seq<(RegionStatus, bool)>)
    requires c.community.host != "" && other != c.community.host
    ensures !ok
    ensures trace == [(Success, false), (Neutral, false), (Error, true), (Neutral, false), (Success, false)]
  {
    var w := Loaded(c);
    w.lastValidationConfig := Some(c);
    w.HandleValidation(c, true);
    trace := [(w.Status(), w.MessageShown())];
    w.EditHost("");
    trace := trace + [(w.Status(), w.MessageShown())];
    ok := w.ValidateInputs();
    trace := trace + [(w.Status(), w.MessageShown())];
    w.EditHost(other);
    trace := trace + [(w.Status(), w.MessageShown())];
    w.EditHost(c.community.host);
    trace := trace + [(w.Status(), w.MessageShown())];
  }

  /** A response that arrives after the port was changed is not shown, and
      is shown once the port is changed back. */
  method ResponseAfterPortChange(c: Config, port: int) returns (before: RegionStatus, after: RegionStatus)
    requires port != c.community.port
    ensures before == Neutral && after == Success
  {
    var w := Loaded(c);
    w.EditPort(port);
    w.lastValidationConfig := Some(c);
    w.HandleValidation(c, true);
    before := w.Status();
    w.EditPort(c.community.port);
    after := w.Status();
  }

  /** A successful validation shows success, keeps the selector disabled and
      fetches the types of exactly the validated target, once. */
  method SuccessfulValidation(c: Config) returns (status: RegionStatus, enabled: bool, fetched: seq<Target>)
    ensures status == Success && !enabled
    ensures fetched == [Target(c.community.host, c.community.port, c.community.protocol)]
  {
    var w := Loaded(c);
    w.lastValidationConfig := Some(c);
    w.HandleValidation(c, true);
    status, enabled, fetched := w.Status(), w.SelectorEnabled(), w.fetches;
  }

  /** New types that contain the selected login type: the selector is
      enabled and shows exactly the types. */
  method NewTypesWithSelected(c: Config, types: seq<string>)
    returns (enabled: bool, options: seq<string>, matches: bool, config: Config)
    requires NoDups(types) && c.loginType in types
    ensures enabled && options == types && matches && config == c
  {
    var w := TypesArrived(c, types);
    enabled, options, config := w.SelectorEnabled(), w.options, w.GetConfig();
    UnionWithSelected(types, c.loginType);
    ContainsOptionsDistinct(options, types);
    matches := ToContainOptions(options, types);
  }

  /** A widget validated for `c` whose host was then changed to `host`. */
  method HostChanged(c: Config, host: string) returns (w: CommunityWidget)
    ensures fresh(w) && w.Valid()
    ensures w.live == WithHost(c, host) && w.result == Some(Validation(c, true))
    ensures w.lastValidationConfig == Some(c) && !w.clientError
    ensures w.fetches == [TargetOf(c)] && !w.typesArrived && w.validateEmitted == 0
    ensures w.options == OptionList([], c.loginType)
  {
    w := Loaded(c);
    w.lastValidationConfig := Some(c);
    w.HandleValidation(c, true);
    w.EditHost(host);
  }

  /** Changing the host clears the status, and getConfig reports the new host
      with every other field as loaded. */
  method AfterHostChange(c: Config, host: string) returns (status: RegionStatus, config: Config)
    requires host != c.community.host
    ensures status == Neutral
    ensures config.community.host == host && config.loginType == c.loginType
    ensures config.community.(host := c.community.host) == c.community
  {
    var w := HostChanged(c, host);
    status, config := w.Status(), w.GetConfig();
  }

  /** Types arriving while the host differs leave the selector disabled;
      changing the host back enables it. */
  method TypesWhileHostChanged(c: Config, host: string, types: seq<string>)
    returns (before: bool, after: bool)
    requires host != c.community.host
    ensures !before && after
  {
    var w := HostChanged(c, host);
    w.SecurityTypesChanged(types);
    before := w.SelectorEnabled();
    w.EditHost(c.community.host);
    after := w.SelectorEnabled();
  }

  /** Changing the host back restores the success status. */
  method HostChangedBack(c: Config, host: string) returns (status: RegionStatus)
    ensures status == Success
  {
    var w := HostChanged(c, host);
    w.EditHost(c.community.host);
    status := w.Status();
  }

  /** Test Connection emits one `validate` event. */
  method TestConnectionEmitsValidate(c: Config, host: string) returns (emitted: nat)
    ensures emitted == 1
  {
    var w := HostChanged(c, host);
    w.TestConnection();
    emitted := w.validateEmitted;
  }

  /** A success for `c` delivered again after the host changed does not
      paint the new target, and requests no second fetch. */
  method StaleSuccessRedelivered(c: Config, host: string) returns (status: RegionStatus, fetchCount: nat)
    requires host != c.community.host
    ensures status == Neutral && fetchCount == 1
  {
    var w := HostChanged(c, host);
    w.HandleValidation(c, true);
    status, fetchCount := w.Status(), |w.fetches|;
  }

  /** A response for a request that is no longer outstanding is discarded. */
  method SupersededResponse(c: Config, d: Config, valid: bool) returns (status: RegionStatus, fetchCount: nat)
    requires c != d
    ensures status == Neutral && fetchCount == 0
  {
    var w := Loaded(c);
    w.lastValidationConfig := Some(d);
    w.HandleValidation(c, valid);
    status, fetchCount := w.Status(), |w.fetches|;
  }

  /** For any widget without a client error: changing the host away and back
      restores the status and the selector state, and requests nothing. */
  method HostAwayAndBack(w: CommunityWidget, host: string)
    requires w.Valid() && !w.clientError
    modifies w
    ensures w.Valid() && w.GetConfig() == old(w.GetConfig())
    ensures w.Status() == old(w.Status()) && w.SelectorEnabled() == old(w.SelectorEnabled())
    ensures w.fetches == old(w.fetches)
  {
    var back := w.live.community.host;
    w.EditHost(host);
    w.EditHost(back);
    EditBack(old(w.live), host, old(w.live.community.port), old(w.live.community.protocol));
  }

  /** Beyond the suite: choosing one of the fetched types does not rebuild
      the options, so the loaded login type stays on offer. */
  method PickFetchedType(c: Config, types: seq<string>, k: nat)
    returns (options: seq<string>, config: Config)
    requires NoDups(types) && c.loginType !in types && k < |types|
    ensures options == types + [c.loginType]
    ensures config == c.(loginType := types[k])
  {
    var w := TypesArrived(c, types);
    UnionWithSelected(types, c.loginType);
    w.EditLoginType(types[k]);
    options, config := w.options, w.GetConfig();
  }
}
