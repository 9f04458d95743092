/** The community login widget: the live configuration, the validation it
    last recorded, and the security types it fetched once a connection was
    confirmed.

    Everything the page shows is derived from the fields: the status of the
    connection-details region, the client-validation message, whether the
    login-type selector is enabled, and the selector's options. A recorded
    validation is shown only while the live connection target is the one it
    was recorded for, so editing a connection field away hides it at once
    and editing it back shows it again, with no new round trip.
 */
module Widget {
  import opened Config
  import opened Options

  datatype Option<T> = None | Some(value: T)

  /** A validation response, together with the config it answers for. */
  datatype Validation = Validation(config: Config, valid: bool)

  /** The status of the connection-details region: its success class, its
      error class, or neither. */
  datatype RegionStatus = Success | Error | Neutral

  /** The region status for a recorded validation, the client-side error flag
      and the live connection target. */
  function StatusFor(recorded: Option<Validation>, clientError: bool, live: Target): (s: RegionStatus)
    ensures s == Success <==>
      !clientError && recorded.Some? && recorded.value.valid && TargetOf(recorded.value.config) == live
    ensures s == Neutral <==>
      !clientError && (recorded.None? || TargetOf(recorded.value.config) != live)
  {
    if clientError then Error
    else if recorded.Some? && TargetOf(recorded.value.config) == live then
      (if recorded.value.valid then Success else Error)
    else Neutral
  }

  /** The option list the login-type select is built with: the fetched
      types, then the selected login type unless it is already one of them. */
  function OptionList(types: seq<string>, selected: string): (options: seq<string>)
    ensures NoDups(options) && selected in options
    ensures forall t :: t in options <==> t in types || t == selected
    ensures NoDups(types) ==>
      options == if selected in types then types else types + [selected]
  {
    UnionWithSelected(types, selected);
    Union(types, [selected])
  }

  /** Whether the last fetch in `fetches` asked for the types of `t`. */
  predicate LastFetchFor(fetches: seq<Target>, t: Target) {
    |fetches| > 0 && fetches[|fetches| - 1] == t
  }

  class CommunityWidget {
    /** The config the inputs currently hold. */
    var live: Config
    /** The validation request currently outstanding; a response for any
        other config is discarded. */
    var lastValidationConfig: Option<Config>
    /** The last validation response that was accepted. */
    var result: Option<Validation>
    /** Set when `validateInputs` found the inputs unusable. */
    var clientError: bool
    /** The security types last delivered by the security-types model. */
    var securityTypes: seq<string>
    /** Whether security types were delivered since the last fetch. */
    var typesArrived: bool
    /** The options of the login-type select. They are rebuilt when types
        arrive and when a config is loaded, not when a value is chosen. */
    var options: seq<string>
    /** The data of every security-types fetch, in order. */
    var fetches: seq<Target>
    /** How many `validate` events the widget emitted. */
    var validateEmitted: nat

    /** A recorded success has had the security types of its target
        requested, and the selected login type is one of the options. */
    ghost predicate Valid()
      reads this
    {
      (result.Some? && result.value.valid ==> LastFetchFor(fetches, TargetOf(result.value.config))) &&
      live.loginType in options
    }

    /** `getConfig()`: the config the inputs hold. The region status and the
        selector are judged against exactly this config. */
    function GetConfig(): (c: Config)
      reads this
      ensures Status() == StatusFor(result, clientError, TargetOf(c))
      ensures SelectorEnabled() ==> TargetOf(c) == TargetOf(result.value.config)
    {
      live
    }

    /** Whether the recorded validation answers for the live connection target. */
    function Applies(): bool
      reads this
    {
      result.Some? && TargetOf(result.value.config) == TargetOf(live)
    }

    /** The connection-details region: an error while the client-validation
        message shows, otherwise the recorded response when it answers for
        the live target, otherwise neither success nor error. */
    function Status(): (s: RegionStatus)
      reads this
      ensures MessageShown() ==> s == Error
      ensures s == Success ==> Applies() && result.value.valid && !MessageShown()
      ensures s == Neutral <==> !MessageShown() && !Applies()
    {
      StatusFor(result, clientError, TargetOf(live))
    }

    /** Whether the client-validation message is visible. */
    function MessageShown(): (shown: bool)
      reads this
      ensures shown ==> StatusFor(result, clientError, TargetOf(live)) == Error
    {
      clientError
    }

    /** The login-type selector is enabled once the live target has been
        validated successfully and its security types have arrived. */
    function SelectorEnabled(): (enabled: bool)
      reads this
      ensures enabled ==> result.Some? && result.value.valid && TargetOf(result.value.config) == TargetOf(live)
      ensures enabled && Valid() ==> LastFetchFor(fetches, TargetOf(live)) && typesArrived
    {
      Applies() && result.value.valid && typesArrived
    }

    constructor (initial: Config)
      ensures Valid()
      ensures live == initial && lastValidationConfig == None && result == None
      ensures !clientError && securityTypes == [] && !typesArrived
      ensures fetches == [] && validateEmitted == 0
      ensures options == OptionList([], initial.loginType)
      ensures Status() == Neutral && !SelectorEnabled() && !MessageShown()
    {
      live := initial;
      lastValidationConfig := None;
      result := None;
      clientError := false;
      securityTypes := [];
      typesArrived := false;
      options := OptionList([], initial.loginType);
      fetches := [];
      validateEmitted := 0;
    }

    /** Loads a config: it is never pre-validated and nothing is fetched. */
    method UpdateConfig(c: Config)
      requires Valid()
      modifies this
      ensures Valid()
      ensures GetConfig() == c
      ensures lastValidationConfig == None && result == None && !clientError
      ensures options == OptionList(securityTypes, c.loginType)
      ensures securityTypes == old(securityTypes) && typesArrived == old(typesArrived)
      ensures fetches == old(fetches) && validateEmitted == old(validateEmitted)
      ensures Status() == Neutral && !SelectorEnabled() && !MessageShown()
    {
      live := c;
      lastValidationConfig := None;
      result := None;
      clientError := false;
      options := OptionList(securityTypes, c.loginType);
    }

    /** A change to the host input. */
    method EditHost(host: string)
      requires Valid()
      modifies this
      ensures Valid()
      ensures GetConfig() == WithHost(old(GetConfig()), host)
      ensures !clientError
      ensures lastValidationConfig == old(lastValidationConfig) && result == old(result)
      ensures securityTypes == old(securityTypes) && typesArrived == old(typesArrived)
      ensures fetches == old(fetches) && validateEmitted == old(validateEmitted)
      ensures options == old(options)
      ensures Status() == StatusFor(result, false, TargetOf(live)) && !MessageShown()
    {
      live := WithHost(live, host);
      clientError := false;
    }

    /** A change to the port input. */
    method EditPort(port: int)
      requires Valid()
      modifies this
      ensures Valid()
      ensures GetConfig() == WithPort(old(GetConfig()), port)
      ensures !clientError
      ensures lastValidationConfig == old(lastValidationConfig) && result == old(result)
      ensures securityTypes == old(securityTypes) && typesArrived == old(typesArrived)
      ensures fetches == old(fetches) && validateEmitted == old(validateEmitted)
      ensures options == old(options)
      ensures Status() == StatusFor(result, false, TargetOf(live)) && !MessageShown()
    {
      live := WithPort(live, port);
      clientError := false;
    }

    /** A change to the protocol select. */
    method EditProtocol(protocol: Protocol)
      requires Valid()
      modifies this
      ensures Valid()
      ensures GetConfig() == WithProtocol(old(GetConfig()), protocol)
      ensures !clientError
      ensures lastValidationConfig == old(lastValidationConfig) && result == old(result)
      ensures securityTypes == old(securityTypes) && typesArrived == old(typesArrived)
      ensures fetches == old(fetches) && validateEmitted == old(validateEmitted)
      ensures options == old(options)
      ensures Status() == StatusFor(result, false, TargetOf(live)) && !MessageShown()
    {
      live := WithProtocol(live, protocol);
      clientError := false;
    }

    /** A change to the login-type select, to one of its options: the
        connection target is untouched, so the status, the selector state and
        the fetches stay as they were, and the options are not rebuilt. */
    method EditLoginType(loginType: string)
      requires Valid()
      requires loginType in options
      modifies this
      ensures Valid()
      ensures GetConfig() == old(GetConfig()).(loginType := loginType)
      ensures clientError == old(clientError)
      ensures lastValidationConfig == old(lastValidationConfig) && result == old(result)
      ensures securityTypes == old(securityTypes) && typesArrived == old(typesArrived)
      ensures fetches == old(fetches) && validateEmitted == old(validateEmitted)
      ensures options == old(options)
      ensures Status() == old(Status()) && SelectorEnabled() == old(SelectorEnabled())
    {
      live := live.(loginType := loginType);
    }

    /** The response to a validation request. A response for the outstanding
        request is recorded, whatever the inputs now hold; it shows only while
        they aim at the validated target. A recorded success requests the
        security types of its target, unless the last request already did. */
    method HandleValidation(config: Config, valid: bool)
      requires Valid()
      modifies this
      ensures Valid()
      ensures live == old(live) && clientError == old(clientError)
      ensures lastValidationConfig == old(lastValidationConfig)
      ensures securityTypes == old(securityTypes) && validateEmitted == old(validateEmitted)
      ensures options == old(options)
      ensures result == if old(lastValidationConfig) == Some(config) then Some(Validation(config, valid)) else old(result)
      ensures fetches == old(fetches) +
        if old(lastValidationConfig) == Some(config) && valid && !LastFetchFor(old(fetches), TargetOf(config))
        then [TargetOf(config)] else []
      ensures typesArrived == (old(typesArrived) && fetches == old(fetches))
      // a response for the live target is painted; a stale one is not
      ensures old(lastValidationConfig) == Some(config) && !clientError ==>
        Status() == if TargetOf(config) != TargetOf(live) then Neutral else if valid then Success else Error
      // a new fetch leaves the selector disabled until its types arrive
      ensures |fetches| > |old(fetches)| ==> !SelectorEnabled()
      ensures !valid ==> fetches == old(fetches)
    {
      if lastValidationConfig == Some(config) {
        result := Some(Validation(config, valid));
        var target := TargetOf(config);
        if valid && !LastFetchFor(fetches, target) {
          fetches := fetches + [target];
          typesArrived := false;
        }
      }
    }

    /** The security-types model reports new types. The selector is enabled
        only if the live target is the validated one. */
    method SecurityTypesChanged(types: seq<string>)
      requires Valid()
      modifies this
      ensures Valid()
      ensures securityTypes == types && typesArrived
      ensures live == old(live) && clientError == old(clientError)
      ensures lastValidationConfig == old(lastValidationConfig) && result == old(result)
      ensures fetches == old(fetches) && validateEmitted == old(validateEmitted)
      ensures SelectorEnabled() <==> Applies() && result.value.valid
      ensures options == OptionList(types, live.loginType)
    {
      securityTypes := types;
      typesArrived := true;
      options := OptionList(types, live.loginType);
    }

    /** Client-side validation: the host must not be empty. A failure shows
        the message and the error status until the next connection edit. */
    method ValidateInputs() returns (ok: bool)
      requires Valid()
      modifies this
      ensures Valid()
      ensures ok <==> live.community.host != ""
      ensures clientError == !ok && MessageShown() == !ok
      ensures !ok ==> Status() == Error
      ensures live == old(live) && lastValidationConfig == old(lastValidationConfig) && result == old(result)
      ensures securityTypes == old(securityTypes) && typesArrived == old(typesArrived)
      ensures fetches == old(fetches) && validateEmitted == old(validateEmitted)
      ensures options == old(options)
    {
      ok := live.community.host != "";
      clientError := !ok;
    }

    /** The Test Connection button: emits a `validate` event. */
    method TestConnection()
      requires Valid()
      modifies this
      ensures Valid()
      ensures validateEmitted == old(validateEmitted) + 1
      ensures live == old(live) && clientError == old(clientError)
      ensures lastValidationConfig == old(lastValidationConfig) && result == old(result)
      ensures securityTypes == old(securityTypes) && typesArrived == old(typesArrived)
      ensures fetches == old(fetches) && options == old(options)
    {
      validateEmitted := validateEmitted + 1;
    }
  }

  /** Editing the host of a config whose target has a recorded response
      (and no client error): the response keeps showing if the host is
      unchanged and the region turns neutral otherwise; editing it back gives
      the earlier status again. */
  lemma HostEditHidesRecorded(recorded: Validation, c: Config, host: string)
    requires TargetOf(recorded.config) == TargetOf(c)
    ensures StatusFor(Some(recorded), false, TargetOf(WithHost(c, host))) ==
      if host == c.community.host then StatusFor(Some(recorded), false, TargetOf(c)) else Neutral
    ensures StatusFor(Some(recorded), false, TargetOf(WithHost(WithHost(c, host), c.community.host))) ==
      StatusFor(Some(recorded), false, TargetOf(c))
  {
    EditMovesTarget(c, host, c.community.port, c.community.protocol, c.loginType);
    EditBack(c, host, c.community.port, c.community.protocol);
  }

  /** A failed validation never shows success, whatever the live target. */
  lemma FailureNeverSuccess(recorded: Validation, clientError: bool, live: Target)
    requires !recorded.valid
    ensures StatusFor(Some(recorded), clientError, live) != Success
  {
  }
}
