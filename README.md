# Community login widget — a verified model

The settings page has a Community widget. Through it an administrator sets the
host, port and protocol of the Community server, and the login type (`method`),
that the application authenticates against. The widget's implementation,
`settings/js/widgets/community-widget`, is not part of this model. The model
follows what the assertions of its Jasmine suite,
`src/test/js/spec/widgets/community-widget.js`, fix, and proves it.

The model is the class `Widget.CommunityWidget`. Its fields are:

- the live config;
- `lastValidationConfig`, the validation request currently outstanding;
- the recorded validation response;
- a client-side-error flag;
- the security types last delivered;
- the options of the login-type select;
- whether types arrived since the last fetch;
- the log of security-types fetches;
- a count of `validate` events.

Everything the page shows is a function of those fields:

- the connection-details region status (`Success`, `Error` or `Neutral`);
- the client-validation message;
- whether the login-type selector is enabled;
- the selector's options, which are kept in their own field.

The central rule: a recorded response is shown only while the live host, port
and protocol equal the ones it was recorded for. Editing a connection field
hides it at once, and editing it back shows it again without a new round trip.

Files:

- `config.dfy` (module `Config`): the config document, its connection target,
  and the field edits.
- `options.dfy` (module `Options`): the option list (underscore's `_.union`)
  and the suite's `toContainOptions` matcher.
- `widget.dfy` (module `Widget`): the widget class and its derived views.
- `scenarios.dfy` (module `CommunityWidgetSpec`): each case of the suite,
  replayed on a fresh widget and stated for every config rather than for
  the suite's one sample config. Four more methods go beyond the suite:
  `StaleSuccessRedelivered`, `SupersededResponse`, `HostAwayAndBack` and
  `PickFetchedType`.
  They exercise the choices listed below, which no case of the suite covers.

For the external login types `cas` and `external` one might expect the
selector to stay disabled. Line 101 asserts the opposite: after a successful
validation and new security types, the selector is enabled for those types
too. So `SelectorEnabled` does not look at the login type.

Some behaviour is not fixed by the assertions. These choices are made in the model:

- `HandleValidation` records a response only when its config is
  `lastValidationConfig`. Every case sets that field first.
- A recorded response is kept even when the inputs have moved on.
  Lines 178-188 show it appearing once the port is changed back.
- A recorded success requests the types of its target, unless the last
  request was already for that target. So after a config is reloaded for a
  target whose types already arrived, a new success neither fetches again nor
  disables the selector: it is enabled at once. Lines 204-207 hold for a
  widget whose last fetch was for another target, or that has not fetched yet.
- `UpdateConfig` clears the recorded response and the outstanding request.
- `GetConfig` returns the `productType` and `indexErrorMessage` of the loaded
  config. The suite passes the constructor the same values (lines 65-66) that
  it loads (line 13), so the check at line 116 cannot tell this apart from the
  widget filling both fields in from its constructor options.
- Any connection-field edit clears the client-side error.
- The options are built when security types arrive and when a config is
  loaded, from the login type selected at that moment. Choosing a login type
  does not rebuild them, and a choice is always one of the options.

## Model

| member | source | states |
|---|---|---|
| `Config.EditMovesTarget` | src/test/js/spec/widgets/community-widget.js:225-252 | a host, port or protocol edit moves the connection target exactly when the new value differs from the old; a login-type edit never moves it. This is when an edit hides the status |
| `Config.EditBack` | src/test/js/spec/widgets/community-widget.js:247-252 | editing a field away and back gives the original config |
| `Options.Dedup` | src/test/js/spec/widgets/community-widget.js:100 | the union has no repeated value and holds exactly the values of its input |
| `Options.DedupOfDistinct` | src/test/js/spec/widgets/community-widget.js:216-223 | a list without repeats is left as it is |
| `Options.UnionKeepsPrefix` | src/test/js/spec/widgets/community-widget.js:216-223 | for fetched types without repeats, the union with anything begins with exactly those types in their order, so nothing else comes before or between them |
| `Options.UnionWithSelected` | src/test/js/spec/widgets/community-widget.js:86-103 | for distinct fetched types, the options are those types in order, then the selected login type only if it is not among them |
| `Options.UnionOnce` | src/test/js/spec/widgets/community-widget.js:100 | a value is offered iff it is fetched or selected, and then exactly once |
| `Options.DistinctCountsOne` | src/test/js/spec/widgets/community-widget.js:53 | in a list without repeats every member occurs exactly once |
| `Options.ToContainOptions` | src/test/js/spec/widgets/community-widget.js:37-59 | the matcher accepts iff the lengths agree and each expected value is carried by exactly one option |
| `Options.ContainsOptionsDistinct` | src/test/js/spec/widgets/community-widget.js:37-59 | for distinct expected values, the matcher accepts exactly the rearrangements of them |
| `Options.DedupShorter` | src/test/js/spec/widgets/community-widget.js:38 | dropping repeats shortens any list that has a repeated value |
| `Options.DuplicatesNotAccountedFor` | src/test/js/spec/widgets/community-widget.js:38 | for any expected list with a repeated value and any value never expected, the method returns an option list holding that value which the matcher accepts |
| `Options.NoStrangerNoRepeat` | src/test/js/spec/widgets/community-widget.js:37-59 | if every option of an accepted list is expected, no expected value is repeated |
| `Options.RepeatedExpectedAdmitsStranger` | src/test/js/spec/widgets/community-widget.js:38 | with a repeated expected value, every list the matcher accepts holds a value never expected |
| `Widget.StatusFor` | src/test/js/spec/widgets/community-widget.js:173-188 | the region shows success iff there is no client error and the recorded response is a success for the live target; it is neutral iff there is no client error and no response for the live target |
| `Widget.HostEditHidesRecorded` | src/test/js/spec/widgets/community-widget.js:225-252 | with a response recorded for the live target and no client error, a host edit keeps its status if the host is unchanged and makes the region neutral otherwise; editing back gives the earlier status |
| `Widget.FailureNeverSuccess` | src/test/js/spec/widgets/community-widget.js:123-130 | a failed response never shows success |
| `Widget.CommunityWidget.GetConfig` | src/test/js/spec/widgets/community-widget.js:254-260 | `getConfig()` returns the config the inputs hold; the region status and the selector are judged against exactly this config. The round trip with `updateConfig` is stated by `UpdateConfig` and `AfterConfigUpdate`, a host edit by `EditHost` and `AfterHostChange` |
| `Widget.CommunityWidget.Status` | src/test/js/spec/widgets/community-widget.js:197-202 | the connection-details region: error while the client-validation message shows; success only for a recorded success answering the live target; neutral iff neither the message shows nor a response answers the live target |
| `Widget.CommunityWidget.MessageShown` | src/test/js/spec/widgets/community-widget.js:141-170 | while the client-validation message shows, the region status is error |
| `Widget.OptionList` | src/test/js/spec/widgets/community-widget.js:97-100 | the option list built from fetched types and the selected login type has no repeated value, holds exactly the types and the login type, and for distinct types is those types in order, then the login type if it is absent |
| `Widget.CommunityWidget.SelectorEnabled` | src/test/js/spec/widgets/community-widget.js:236-245 | an enabled selector means a success recorded for the live target, with the types of that target fetched and arrived |
| `Widget.CommunityWidget.constructor` | src/test/js/spec/widgets/community-widget.js:62-84 | a new widget has no status, a disabled selector and no fetch |
| `Widget.CommunityWidget.UpdateConfig` | src/test/js/spec/widgets/community-widget.js:106-121 | `GetConfig` returns the loaded config; no status, disabled selector, nothing fetched; the options are rebuilt for the loaded login type |
| `Widget.CommunityWidget.EditHost` | src/test/js/spec/widgets/community-widget.js:225-260 | only the host changes; the client error is cleared; the status is the recorded response's if it is for the new target, else neutral |
| `Widget.CommunityWidget.EditPort` | src/test/js/spec/widgets/community-widget.js:173-188 | as `EditHost`, for the port |
| `Widget.CommunityWidget.EditProtocol` | src/test/js/spec/widgets/community-widget.js:26 | as `EditHost`, for the protocol. Line 26 only reads the protocol select; no case of the suite edits the protocol |
| `Widget.CommunityWidget.EditLoginType` | src/test/js/spec/widgets/community-widget.js:75 | line 75 only looks up the select, and no case of the suite edits the login type. The new value must be one of the options; only the login type changes; options, status, selector state and fetches are unchanged |
| `Widget.CommunityWidget.HandleValidation` | src/test/js/spec/widgets/community-widget.js:191-214 | a response for the outstanding request is recorded; it paints the region only if its target is live; a success fetches its target's types unless the last fetch was already for that target, and leaves the selector disabled whenever it issues a fetch; a failure fetches nothing |
| `Widget.CommunityWidget.SecurityTypesChanged` | src/test/js/spec/widgets/community-widget.js:216-245 | stores the types; the selector is enabled iff a success is recorded for the live target; the options are rebuilt as `OptionList` of the types and the login type |
| `Widget.CommunityWidget.ValidateInputs` | src/test/js/spec/widgets/community-widget.js:150-156 | returns false iff the host is empty, and then shows the error status and the message |
| `Widget.CommunityWidget.TestConnection` | src/test/js/spec/widgets/community-widget.js:262-267 | emits one more `validate` event and changes nothing else |
| `CommunityWidgetSpec.ShouldRenderCorrectly` | src/test/js/spec/widgets/community-widget.js:79-84 | after rendering: neutral region, disabled selector, no fetch |
| `CommunityWidgetSpec.NonCommunityLoginType` | src/test/js/spec/widgets/community-widget.js:86-103 | a login type outside the fetched types is appended to them, the matcher accepts, the selector is enabled and the config is unchanged |
| `CommunityWidgetSpec.AfterConfigUpdate` | src/test/js/spec/widgets/community-widget.js:111-121 | `GetConfig` after `UpdateConfig(c)` is exactly `c`, and the selector is disabled |
| `CommunityWidgetSpec.FailedValidation` | src/test/js/spec/widgets/community-widget.js:123-130 | a failed validation of the live config shows error and fetches nothing |
| `CommunityWidgetSpec.EmptyHostClientValidation` | src/test/js/spec/widgets/community-widget.js:132-171 | success; host cleared: neutral; validateInputs: false, error, message; other host: neutral, no message; host back: success |
| `CommunityWidgetSpec.ResponseAfterPortChange` | src/test/js/spec/widgets/community-widget.js:173-188 | a success arriving after a port edit is not shown, and is shown once the port is changed back |
| `CommunityWidgetSpec.SuccessfulValidation` | src/test/js/spec/widgets/community-widget.js:197-214 | success status, disabled selector, and exactly one fetch whose data is the validated host, port and protocol |
| `CommunityWidgetSpec.NewTypesWithSelected` | src/test/js/spec/widgets/community-widget.js:216-223 | types containing the login type: selector enabled, options exactly the types, config unchanged |
| `CommunityWidgetSpec.AfterHostChange` | src/test/js/spec/widgets/community-widget.js:231-260 | a host edit clears the status; `GetConfig` has the new host and every other field as loaded |
| `CommunityWidgetSpec.TypesWhileHostChanged` | src/test/js/spec/widgets/community-widget.js:236-245 | types arriving while the host differs leave the selector disabled; editing back enables it |
| `CommunityWidgetSpec.HostChangedBack` | src/test/js/spec/widgets/community-widget.js:247-252 | changing the host back restores success |
| `CommunityWidgetSpec.TestConnectionEmitsValidate` | src/test/js/spec/widgets/community-widget.js:262-267 | Test Connection emits exactly one `validate` event |
| `CommunityWidgetSpec.StaleSuccessRedelivered` | src/test/js/spec/widgets/community-widget.js:225-234 | beyond the suite: a success for the old target delivered again after a host edit shows nothing and fetches nothing more (the choices on keeping stale responses and on fetching once per target) |
| `CommunityWidgetSpec.SupersededResponse` | src/test/js/spec/widgets/community-widget.js:178-180 | beyond the suite: a response for a config that is not the outstanding request is discarded (the choice on `lastValidationConfig`) |
| `CommunityWidgetSpec.HostAwayAndBack` | src/test/js/spec/widgets/community-widget.js:247-252 | beyond the suite: for any widget without a client error, a host edit and its reversal restore config, status and selector state, with no fetch |
| `CommunityWidgetSpec.PickFetchedType` | src/test/js/spec/widgets/community-widget.js:86-103 | beyond the suite: after the types arrive, choosing one of them leaves the options as built, so the loaded login type stays on offer; only the login type of the config changes |

## Left out

- Rendering: the DOM, jQuery, CSS classes and the strings map. The region status is an enum, and enabled and message-visible are booleans.
- The widget element's own `success`/`error` classes (lines 139, 145, 153, 160, 167, 200-201) are not modelled. The model has no widget-level status, so nothing can set one.
- The `toDisplayConfig` matcher (lines 19-36) is not modelled. It extends the expected config over the displayed one, so it accepts almost any display. This includes the initial values at line 80, so `constructor` takes the initial config as a parameter.
- The Backbone event wiring behind Test Connection is not modelled. The emitted `validate` event is only counted.
- Who assigns `lastValidationConfig` outside the suite is unknown. The cases assign the field directly, and so do the replays.
- The HTTP fetch of security types and the Jasmine spies are not modelled. A fetch is an entry in `fetches`. A delivery of types is a call to `SecurityTypesChanged`, taken to answer the latest fetch.
- Line 100 passes the bare string `type` to `_.union`. The model reads that as a one-element list, so the expected options are the fetched types followed by `type`. That is how underscore up to 1.6 flattens a non-array argument. From underscore 1.7 on, `_.union` drops non-array arguments, and line 100 would then expect the fetched types alone. The underscore version the suite runs against is not part of this model.
- The port input arrives as an integer. Text-to-number coercion of the input (`Number(...)`) is not modelled, because the cases only ever pass numbers.
- Ports are unbounded integers. JavaScript non-integer numbers are not modelled.
- The production widget's internal structure is not part of this model. Only what the assertions fix is modelled, plus the choices listed above.
