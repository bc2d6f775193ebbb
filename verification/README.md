# Angular components: five small pieces of decision logic, in Dafny

This project models five small, self-contained pieces of logic from the Angular components
repository as pure functions over explicit state, and proves what each one promises.

- **`BackgroundClickService`** (`src/cdk-experimental/menu/background-click-service.ts`), module
  `BackgroundClick`. This root-level coordinator keeps at most one menu stack open.
  - Its state is the `CloseDecider`, the tracked menu stack, and the list of live rxjs
    subscriptions. All the subscriptions are cut by one shared stop signal.
  - `ngOnDestroy` completes that stop signal. From then on, stopping cuts nothing.
  - Events are `startListener`, a document `mousedown`, a stack's `emptied` and
    `ngOnDestroy`. Each step returns the new state, the `closeAll()` calls it issued in
    order, and the ids of the listeners whose callbacks ran.
  - `MenuStack` is not part of this model. Whether `closeAll()` emits `emptied`
    synchronously is therefore the parameter `syncEmptied` of every step.
  - Module `BackgroundClickScenarios` runs short sequences of events. Each names the states it
    starts from: an idle service, the shape that one `startListener` leaves behind, any
    well-formed state, or a destroyed one.
- **Workspace lookup** (`src/lib/schematics/utils/devkit-utils/config.ts`), module
  `WorkspaceConfig`. It covers `getWorkspace` and `getProjectFromWorkspace`. The source
  assigns `project.name` in place, so the lookup returns the workspace as it is after the
  call together with the returned project or the thrown error.
- **Schematic paths** (`src/lib/schematics/utils/ast.ts`), module `SchematicPaths`. It
  covers `getIndexHtmlPath` and `getStylesPath`.
  - The regular expressions become substring tests.
  - `Array.prototype.find` becomes a first-match search.
  - `normalize` is a function the caller supplies.
- **Direction** (`src/cdk/bidi/directionality.ts`), module `Bidi`. This is the value the
  `Directionality` constructor resolves from the optional document's body and html `dir`.
- **Slide toggle** (`src/material/slide-toggle/slide-toggle.ts`), module `SlideToggle`.
  - It models `toggle`, `writeValue`, `_onChangeEvent` and `_emitChangeEvent`. Each returns
    the new `checked` / input-`checked` state and the ordered emissions (`onChange`,
    `change`, `toggleChange`).
  - It also models the generated-id counter, `inputId`, and the constructor's
    `parseInt(tabIndex) || 0`.

`Wrappers` (`Option`, `Result`) and `Strings` (substring and suffix tests, decimal
rendering) are shared helpers.

Two behaviours of the code promise less than a plain reading of the service suggests, and the model follows the code:

- The menu service's mousedown callback reads the decider and stack that are current
  when the event arrives. Old subscriptions are cut only by an `emptied` or by destroy.
  - Suppose a stack's `closeAll()` does not emit `emptied` synchronously. Then switching
    stacks leaves the old mousedown listener alive, and one accepted click closes the
    new stack twice (`SwitchWithoutEmptiedClosesTwice`).
  - A late `emptied` from the old stack also clears the new one
    (`StaleEmptiedClearsNewerStack`).
  - So "the old listener cannot fire after a new `startListener`" holds only when
    `closeAll()` empties the stack at once and `ngOnDestroy` has not run (`RunKeepsTracking`).
- "After teardown no click closes anything" holds for the listeners subscribed before
  the first `ngOnDestroy` (`NoListenerFiresAfterDestroy`). A `startListener` after teardown makes
  subscriptions that the completed stop signal can no longer cut. Once that stack empties,
  a click on an element calls the cleared `undefined` decider and throws
  (`ClickAfterDestroyFaults`).

## Model

| member | source | states |
|---|---|---|
| BackgroundClick.StartListener | src/cdk-experimental/menu/background-click-service.ts:59-89 | Several cases: (1) Starting with the stack already tracked changes nothing, closes nothing and subscribes nothing. (2) With a different stack, it closes the previously tracked stack once, or nothing if none is tracked. (3) The new decider and stack become exactly the arguments. (4) Two fresh subscriptions (that stack's `emptied`, then mousedown) are added after listeners that were already live. |
| BackgroundClick.Subscribe | src/cdk-experimental/menu/background-click-service.ts:114-117 | A `takeUntil(stop)` subscription appends one listener with the next fresh id after the live ones, keeps ids ordered, and changes nothing else. |
| BackgroundClick.Stop | src/cdk-experimental/menu/background-click-service.ts:100-102 | `_stopListener.next()` cuts every live subscription while the Subject is open; once it is complete, the call changes nothing. |
| BackgroundClick.Reset | src/cdk-experimental/menu/background-click-service.ts:105-108 | `_resetState` forgets the decider and the stack and leaves the subscriptions, the id counter and the stop signal as they were. |
| BackgroundClick.ClosePrevious | src/cdk-experimental/menu/background-click-service.ts:77-79 | `closeAll` goes to the tracked stack if there is one, else nothing is closed; it never throws and subscribes nothing. |
| BackgroundClick.EmitEmptied | src/cdk-experimental/menu/background-click-service.ts:92-108 | An `emptied` reaching a live subscriber clears decider and stack and cuts every live subscription (none once the stop signal is complete); an `emptied` nobody listens to changes nothing. |
| BackgroundClick.RunEmptied | src/cdk-experimental/menu/background-click-service.ts:93-101 | Dispatching `emptied` over a snapshot: if no snapshot listener is still live nothing happens, otherwise the service is reset and cut off; only live listeners run. |
| BackgroundClick.ResolveTarget | src/cdk-experimental/menu/background-click-service.ts:118 | The target is the first entry of `composedPath()` when the browser provides it, else `event.target`. |
| BackgroundClick.MousedownCallback | src/cdk-experimental/menu/background-click-service.ts:117-121 | Closes exactly the currently tracked stack iff the target is an `HTMLElement` and the current decider accepts it; a non-element target does nothing; reading a missing decider (or stack) throws. |
| BackgroundClick.RunMousedown | src/cdk-experimental/menu/background-click-service.ts:114-123 | Every `closeAll` goes to the stack tracked when the event arrived; a non-element or rejected target closes nothing; a rejected decider changes nothing. |
| BackgroundClick.ClosesOncePerListener | src/cdk-experimental/menu/background-click-service.ts:114-121 | Without a synchronous `emptied`, a snapshot of live mousedown listeners under an accepting decider closes the tracked stack exactly once per listener, in order, and changes nothing else. |
| BackgroundClick.AcceptedClickClosesPerListener | src/cdk-experimental/menu/background-click-service.ts:114-123 | Without a synchronous `emptied`, an accepted click on an element closes the tracked stack once for every live mousedown subscription, leaves the state unchanged and does not throw. |
| BackgroundClick.OnMousedown | src/cdk-experimental/menu/background-click-service.ts:114-123 | A mousedown whose target is not an `HTMLElement`, or that the decider rejects, changes nothing and closes nothing; every close goes to the tracked stack. |
| BackgroundClick.Destroy | src/cdk-experimental/menu/background-click-service.ts:125-128 | `ngOnDestroy` completes the stop signal and changes nothing but the subscriptions. The first call cuts every live subscription. A later call signals a completed Subject and cuts none. |
| BackgroundClick.Step | src/cdk-experimental/menu/background-click-service.ts:59-128 | Any event keeps listener ids unique and ordered, only live listeners fire, and any listener live afterwards was live before or is new. |
| BackgroundClick.MousedownClosesOnce | src/cdk-experimental/menu/background-click-service.ts:114-121 | Before `ngOnDestroy`, from the single-stack shape (idle with no subscription, or one stack with exactly its `emptied` and mousedown subscriptions), when `closeAll` empties a stack at once: a mousedown closes the tracked stack exactly once if the resolved target is an `HTMLElement` the decider accepts, and closes nothing otherwise. It never throws and keeps that shape. |
| BackgroundClick.EmptiedKeepsTracking | src/cdk-experimental/menu/background-click-service.ts:93-108 | Before `ngOnDestroy`, from the single-stack shape (idle with no subscription, or one stack with exactly its `emptied` and mousedown subscriptions): `emptied` from the tracked stack resets the service to idle with no subscriptions; from any other stack it changes nothing. |
| BackgroundClick.StartKeepsTracking | src/cdk-experimental/menu/background-click-service.ts:59-74 | Before `ngOnDestroy`, from the single-stack shape (idle with no subscription, or one stack with exactly its `emptied` and mousedown subscriptions), when `closeAll` empties a stack at once: `startListener` keeps that shape, and for a stack not already tracked it leaves exactly two subscriptions. |
| BackgroundClick.StepKeepsTracking | src/cdk-experimental/menu/background-click-service.ts:59-123 | Before `ngOnDestroy`, from the single-stack shape (idle with no subscription, or one stack with exactly its `emptied` and mousedown subscriptions), with stacks that empty on `closeAll`: any single event other than `ngOnDestroy` keeps that shape and never throws. |
| BackgroundClick.RunKeepsTracking | src/cdk-experimental/menu/background-click-service.ts:59-123 | Before `ngOnDestroy`, from the single-stack shape (idle with no subscription, or one stack with exactly its `emptied` and mousedown subscriptions), with stacks that empty on `closeAll`: any run without `ngOnDestroy` keeps that shape and never throws. |
| BackgroundClick.RunFiresOnlyFrom | src/cdk-experimental/menu/background-click-service.ts:125-128 | If every live and future listener id is at least `k`, no listener below `k` ever fires in any run. |
| BackgroundClick.NoListenerFiresAfterDestroy | src/cdk-experimental/menu/background-click-service.ts:125-128 | After the first `ngOnDestroy`, no listener subscribed before it ever runs again, whatever events follow. |
| BackgroundClickScenarios.StartWithoutEmptied | src/cdk-experimental/menu/background-click-service.ts:63-72 | When `closeAll` does not emit `emptied`, switching stacks closes the old one and appends two subscriptions while the old ones stay live. |
| BackgroundClickScenarios.SwitchAddsMousedownListener | src/cdk-experimental/menu/background-click-service.ts:63-72 | Switching stacks without a synchronous `emptied` adds exactly one mousedown subscription to the dispatch snapshot and cuts none. |
| BackgroundClickScenarios.SwitchThenClick | src/cdk-experimental/menu/background-click-service.ts:59-121 | When `closeAll` does not emit `emptied` synchronously: switching to stack `st` and then clicking where the new decider accepts closes `st` once more than the number of mousedown subscriptions held before the switch. The click leaves the state unchanged and does not throw. |
| BackgroundClickScenarios.StartFromIdleState | src/cdk-experimental/menu/background-click-service.ts:59-89 | Starting an idle service closes nothing and leaves exactly the new decider, the stack and its two subscriptions. |
| BackgroundClickScenarios.StartFromIdle | src/cdk-experimental/menu/background-click-service.ts:59-89 | Starting an idle service tracks the stack with one mousedown subscription and that stack's `emptied` subscription. |
| BackgroundClickScenarios.SwitchWithoutEmptiedClosesTwice | src/cdk-experimental/menu/background-click-service.ts:59-121 | When `closeAll` does not emit `emptied` synchronously: from stack a tracked with one mousedown subscription (the shape `StartFromIdle` produces), a switch to b closes a. A following click that b's decider accepts closes b twice. |
| BackgroundClickScenarios.EmptiedResets | src/cdk-experimental/menu/background-click-service.ts:93-107 | An `emptied` from a stack with a live subscription, before the stop signal completes, clears decider, stack and every subscription. |
| BackgroundClickScenarios.StaleEmptiedClearsNewerStack | src/cdk-experimental/menu/background-click-service.ts:59-107 | Before `ngOnDestroy`, from stack a with a live `emptied` subscription, a switch to b without an `emptied` keeps that subscription. A late `emptied` from a then clears b's tracking and every subscription. |
| BackgroundClickScenarios.DestroyThenStart | src/cdk-experimental/menu/background-click-service.ts:59-128 | `startListener` after `ngOnDestroy` still tracks the new stack and subscribes two listeners. |
| BackgroundClickScenarios.OrphanedListener | src/cdk-experimental/menu/background-click-service.ts:93-108 | After destroy, an `emptied` from a stack whose two subscriptions are live resets decider and stack but cuts no subscription. |
| BackgroundClickScenarios.OrphanClickFaults | src/cdk-experimental/menu/background-click-service.ts:117-119 | A live mousedown listener with no decider throws on a click on an element. |
| BackgroundClickScenarios.ClickAfterDestroyFaults | src/cdk-experimental/menu/background-click-service.ts:93-128 | From an idle service: destroy, start, `emptied`, click on an element. The click calls the missing decider and throws. |
| BackgroundClickScenarios.RejectedClick | src/cdk-experimental/menu/background-click-service.ts:119 | In any well-formed state with a decider, a click the decider rejects closes nothing, changes nothing and does not throw. |
| BackgroundClickScenarios.ClickSwitchRejectScenario | src/cdk-experimental/menu/background-click-service.ts:59-121 | When `closeAll` does not emit `emptied` synchronously: start a, accepted click, start b, click rejected by b's decider. Then a is closed twice, nothing else is closed, and nothing throws. |
| WorkspaceConfig.GetWorkspace | src/lib/schematics/utils/devkit-utils/config.ts:80-87 | Fails with "Could not find angular.json" when `/angular.json` is absent, else yields `parse` of its text (malformed JSON is not modelled). |
| WorkspaceConfig.Message | src/lib/schematics/utils/devkit-utils/config.ts:98 | The "No project named … exists." message names the missing project. |
| WorkspaceConfig.MessagesDistinct | src/lib/schematics/utils/devkit-utils/config.ts:80-114 | Different exceptions carry different messages, so a caller can tell each failure by its text. |
| WorkspaceConfig.Rename | src/lib/schematics/utils/devkit-utils/config.ts:101 | Setting `name` on one project changes that project's name and nothing else in the workspace. |
| WorkspaceConfig.GetProjectFromWorkspace | src/lib/schematics/utils/devkit-utils/config.ts:93-115 | Several cases: (1) Missing `projects` throws "No projects are defined". (2) A present name returns that project with `name` set, and the workspace records the rename. (3) An absent name throws "No project named … exists." (4) With no (or an empty) name it never succeeds. One project is renamed to its key and then "No projects are defined" is thrown. Any other count throws "Multiple projects" and leaves the workspace untouched. (5) Every success has `name` equal to the requested name. |
| WorkspaceConfig.SingleProjectThrows | src/lib/schematics/utils/devkit-utils/config.ts:105-114 | With exactly one project and no name, the code renames that project and then throws "No projects are defined". |
| WorkspaceConfig.GetProjectIntended | src/lib/schematics/utils/devkit-utils/config.ts:89-92 | The documented lookup: with no name and one project, that project is returned with its key as name and is what the workspace holds; every other case is unchanged. |
| SchematicPaths.GetIndexHtmlPath | src/lib/schematics/utils/ast.ts:49-57 | Returns the build target's `index` exactly when it is present and ends with "index.html", else throws "No index.html file was found."; a project without a build target fails. |
| SchematicPaths.IndexHtmlOnlyReadsIndex | src/lib/schematics/utils/ast.ts:49-57 | Two projects whose `build` targets have the same `index` option get the same answer: nothing else in the project matters. |
| SchematicPaths.FindFirst | src/lib/schematics/utils/ast.ts:68 | `find` returns the first index satisfying the predicate, or nothing exactly when no element does. |
| SchematicPaths.IsMainStyle | src/lib/schematics/utils/ast.ts:68 | The three substring tests hold exactly when "styles." occurs directly followed by one of the alternatives `css`, `less`, `scss`: the unanchored regular expression `/styles\.(c\|le\|sc)ss/`. |
| SchematicPaths.IsStyleSheet | src/lib/schematics/utils/ast.ts:74 | The three substring tests hold exactly when a "." occurs directly followed by one of `css`, `less`, `scss`: the unanchored regular expression `/\.(c\|le\|sc)ss/`. |
| SchematicPaths.Inputs | src/lib/schematics/utils/ast.ts:64 | `map(s => s.input)` keeps length and takes each entry's input in order. |
| SchematicPaths.InputText | src/lib/schematics/utils/ast.ts:64 | An object entry yields its `input`. A bare path string yields `undefined`, whose text matches neither pattern. |
| SchematicPaths.UndefinedMatchesNothing | src/lib/schematics/utils/ast.ts:64-74 | The text "undefined" is neither a stylesheet nor a default main stylesheet. |
| SchematicPaths.BarePathsFindNothing | src/lib/schematics/utils/ast.ts:63-80 | A `styles` array of bare path strings only finds no stylesheet and throws "No style files…". |
| SchematicPaths.StyleInputs | src/lib/schematics/utils/ast.ts:63 | Style inputs are present exactly when the build target, its options and a non-empty `styles` array are, and they are then the entries' inputs in order. |
| SchematicPaths.MainStyleIsStyleSheet | src/lib/schematics/utils/ast.ts:68-74 | Every "styles.(c\|le\|sc)ss" match also matches the plain ".(c\|le\|sc)ss" test. |
| SchematicPaths.GetStylesPath | src/lib/schematics/utils/ast.ts:60-81 | Several cases: (1) It succeeds iff some style input is a stylesheet. (2) The first "styles.*" input, wherever it sits, wins. (3) Failing that, the first stylesheet wins. (4) The result is always `normalize` of one of the inputs, and of an object entry's `input`, never of a bare path string. (5) Missing or empty styles, or no match, throw "No style files". |
| SchematicPaths.MainStyleBeatsEarlierSheet | src/lib/schematics/utils/ast.ts:66-77 | A "styles.*" entry is chosen over a plain stylesheet listed before it. |
| Bidi.Candidate | src/cdk/bidi/directionality.ts:41-43 | `bodyDir \|\| htmlDir`: a non-empty body `dir` is the candidate, otherwise the html `dir` (or null). |
| Bidi.ResolveDirection | src/cdk/bidi/directionality.ts:35-45 | No document gives `ltr`; the result is `rtl` exactly when the body declares "rtl", or the body is missing or has an empty `dir` and the html element declares "rtl". |
| Bidi.BodyDirWins | src/cdk/bidi/directionality.ts:41-44 | A non-empty body `dir` decides the direction whatever the html element says. |
| Bidi.EmptyBodyFallsBack | src/cdk/bidi/directionality.ts:41-44 | A missing body or an empty body `dir` defers to the html element's `dir`. |
| Bidi.UnknownCandidateIsLtr | src/cdk/bidi/directionality.ts:44 | Any candidate other than exactly "ltr" or "rtl" gives `ltr`. |
| Bidi.AutoBodyShadowsRtlHtml | src/cdk/bidi/directionality.ts:37-44 | A body `dir="auto"` hides an html `dir="rtl"`, giving `ltr`. |
| SlideToggle.Flip | src/material/slide-toggle/slide-toggle.ts:275-278 | `toggle()` negates `checked`, changes nothing else, and reports only `onChange` with the new value, never `change` or `toggleChange`. |
| SlideToggle.FlipTwice | src/material/slide-toggle/slide-toggle.ts:275-278 | Toggling twice restores the state and reports the two values in turn. |
| SlideToggle.WriteValue | src/material/slide-toggle/slide-toggle.ts:249-251 | `writeValue(v)` sets `checked` to the JavaScript truthiness of `v`, changes nothing else and emits nothing. |
| SlideToggle.WriteValueOverrides | src/material/slide-toggle/slide-toggle.ts:249-251 | A write decides `checked` on its own: a preceding `toggle()` or write makes no difference to the state it leaves. |
| SlideToggle.WriteBoolean | src/material/slide-toggle/slide-toggle.ts:249-251 | Writing `true` or `false` sets `checked` to exactly that value. |
| SlideToggle.EmitChangeEvent | src/material/slide-toggle/slide-toggle.ts:283-286 | `onChange` first, then `change`, both with the current `checked`. |
| SlideToggle.EventsReportState | src/material/slide-toggle/slide-toggle.ts:213-286 | Every `onChange` and `change` notification of `toggle()`, `writeValue`, `_onChangeEvent` and a user click carries the `checked` state the event leaves behind. |
| SlideToggle.OnChangeEvent | src/material/slide-toggle/slide-toggle.ts:213-234 | Several cases: (1) `toggleChange` is always emitted first. (2) With `disableToggleValue`, `checked` is kept, the input is reset to it, and nothing else is emitted. (3) Otherwise `checked` takes the input's value, then `onChange` and `change` follow with that value. (4) Either way, input and component agree afterwards. |
| SlideToggle.UserClick | src/material/slide-toggle/slide-toggle.ts:213-234 | A user click on an in-sync toggle flips `checked` and emits `toggleChange`, `onChange`, `change` with the new value; with `disableToggleValue` it leaves the state unchanged and emits only `toggleChange`. |
| SlideToggle.InputId | src/material/slide-toggle/slide-toggle.ts:171 | The input id is the `id` if non-empty, else the generated id, followed by "-input". |
| SlideToggle.InputIdsDistinct | src/material/slide-toggle/slide-toggle.ts:112-171 | Toggles created in a row, each with its `id` left at the generated default, have pairwise different input ids. |
| SlideToggle.UniqueId | src/material/slide-toggle/slide-toggle.ts:112 | The generated id is "mat-slide-toggle-" followed by decimal digits that read back as the counter value. |
| SlideToggle.UniqueIdInjective | src/material/slide-toggle/slide-toggle.ts:112 | Different counter values give different `mat-slide-toggle-N` ids. |
| SlideToggle.Construct | src/material/slide-toggle/slide-toggle.ts:112-126 | The counter is incremented before use, the generated id is `mat-slide-toggle-` and the new counter value, `id` defaults to it, the toggle starts unchecked, and `tabIndex` is the parsed attribute. |
| SlideToggle.ConstructMany | src/material/slide-toggle/slide-toggle.ts:48-112 | Toggles created in a row see the counter values `n+1, n+2, …`, take the matching generated ids, and default `id` to them. |
| SlideToggle.GeneratedIdsDistinct | src/material/slide-toggle/slide-toggle.ts:112 | Any two toggles created in a row have different generated ids. |
| SlideToggle.InitialTabIndex | src/material/slide-toggle/slide-toggle.ts:190 | `parseInt(tabIndex) \|\| 0`: a missing attribute, or one that parses to NaN or 0, gives 0; otherwise the parsed number. |
| SlideToggle.NullIsNaN | src/material/slide-toggle/slide-toggle.ts:190 | A missing attribute reaches `parseInt` as `null`, which reads "null" and gives NaN. |
| SlideToggle.TabIndexRoundTrip | src/material/slide-toggle/slide-toggle.ts:190 | Writing a non-negative number as decimal text into the attribute and constructing reads that number back. |
| SlideToggle.ParseDigits | src/material/slide-toggle/slide-toggle.ts:190 | `parseInt` of a non-empty string of decimal digits is their decimal value. |
| SlideToggle.ParseInt | src/material/slide-toggle/slide-toggle.ts:190 | `parseInt`: blank text is NaN, a number needs at least one decimal digit, and text opening with a decimal digit (not "0x") reads its leading digits. |
| SlideToggle.NegativeDigits | src/material/slide-toggle/slide-toggle.ts:190 | A `-` before decimal digits gives the negated value. |
| SlideToggle.NegativeText | src/material/slide-toggle/slide-toggle.ts:190 | Trimmed text starting with `-` reads the unsigned number after the sign, negated. |
| SlideToggle.LeadingSpaceIgnored | src/material/slide-toggle/slide-toggle.ts:190 | White space before the number does not change what `parseInt` reads. |

## Left out

- The DOM and rxjs machinery (`fromEvent`, `takeUntil`, `Subject`, `composedPath`, `instanceof`) is replaced by abstract events, a listener list and a `Node` datatype. The listener ids and the dispatch snapshot stand for the DOM rule that listeners removed during a dispatch do not run.
- Suppose a mousedown callback calls the `undefined` decider or stack after `ngOnDestroy`. The model records that the callback throws and ends the run there. What rxjs and the zone do with that error is not modelled.
- `BackgroundClick.MousedownCallback` takes every `CloseDecider` as total and pure. A decider that throws is the component's other way to fail, and the exception would escape the mousedown callback. The model records a fault only for a missing decider or stack.
- `MenuStack` (`closeAll`, `emptied`) is not part of this model. Its synchronous `emptied` is the parameter `syncEmptied`, and an `emptied` on its own is a separate event.
- `JSON.parse` in `getWorkspace` is the caller-supplied `parse`. The tree read is the caller-supplied `read`.
- `WorkspaceConfig.GetWorkspace` takes `parse` as total: the `SyntaxError` that `JSON.parse` throws on malformed `angular.json` text is not modelled.
- `WorkspaceConfig.GetProjectFromWorkspace` does not model project keys inherited from `Object.prototype`, and it does not model non-object values under `projects`. Every project is a record.
- The TypeScript-compiler and devkit-tree operations of `ast.ts` (`getSourceFile`, `addModuleImportToRootModule`, `addModuleImportToModule`, `getAppModulePath`) are left out. They rest on the compiler and on helpers that are not part of this model.
- `SchematicPaths.GetIndexHtmlPath` models a missing `build` target as an error of its own. The source instead throws a `TypeError` when it reads `.index` of `undefined`.
- `SchematicPaths.GetStylesPath` makes the same substitution: a missing `build` target is the error `NoBuildTarget`, where the source throws a `TypeError` reading `.options` of `undefined`.
- `Bidi.ResolveDirection` does not model the `change` emitter, which carries no logic, or `ngOnDestroy`.
- The slide toggle's focus monitoring, `_onTouched`, change detection, ripple and disabled mixins, the `mixinTabIndex` getter (which reports -1 while disabled), and `_onInputClick` are framework wiring and are left out. `coerceBooleanProperty` is taken as the identity on booleans.
- `SlideToggle.ParseInt` reads decimal and `0x` hexadecimal text after ASCII white space. It does not model Unicode white space or JavaScript number precision.
- `tools/triage-tracker/functions/src/index.ts` is an HTTP handler with HMAC and database writes. It is I/O glue and is left out.
- `src/cdk/stepper/stepper-button.ts` only delegates to `CdkStepper`, which is not part of this model.
- The date-range picker selection strategy example is a thin wrapper over a `DateAdapter` that is not part of this model.
- `src/lib/dialog/dialog-module.ts` is NgModule metadata with no logic.
- `scripts/caretaking/get-merged-prs.js` is a GitHub API network script.

## Findings

| source | as written | input that shows it | evidently intended | confidence | as-written member | corrected member |
|---|---|---|---|---|---|---|
| src/lib/schematics/utils/devkit-utils/config.ts:105-114 | With no project name and exactly one project, the code sets that project's `name` but has no `return`. Control falls through to `throw 'No projects are defined'`. | a workspace whose `projects` is `{"app": {...}}`, with `projectName` undefined | The doc comment at lines 89-92 says the project is retrieved, so the sole project should be returned with `name` set. | high, not executed | WorkspaceConfig.SingleProjectThrows | WorkspaceConfig.GetProjectIntended |
