# react-angular: the decision layer, in Dafny

This project models the part of react-angular that makes decisions: when a React component
hosts an AngularJS template, which element it renders and with which classes, and how it
mounts the template. Two component variants are covered. `src/angularTemplate.js` holds
AngularTemplate and the scope-providing higher-order component. `src/reactAngular.js` holds
the earlier ReactAngular component.

The framework calls are left opaque. Compiling, the digest cycle, dependency injection and
DOM lookup belong to AngularJS and React. What the model keeps is everything the props
decide:

- `render`: whether the classes go under `class` (custom elements) or `className`, how the
  three class sources are merged and trimmed, and how the classes override the wrapper
  attributes. It also covers the child rules: none, one (cloned), or an error.
- `componentDidMount`: the template precedence (`template`, then the cached `templateUrl`,
  then nothing) and whether a function template is applied to `inject`. It also decides the
  scope: the parent, or a new child scope with the `isolate` flag. Finally it decides which
  keys are copied into that scope and where the controller instance is stored.
- `provideAngularScopeHOC`: its name, its `$scope` check and the props it forwards.

Modules:

- `JsValues` (js_values.dfy): JavaScript values and the semantics the source relies on,
  namely truthiness, `!= null`, `angular.isObject`, string conversion, `indexOf` and `trim`.
  `trim` removes ECMAScript WhiteSpace and LineTerminator characters.
- `ReactElements` (react_elements.dfy): elements, plus `createElement` and `cloneElement`
  seen as prop merges, including how a component's `defaultProps` fill undefined props.
- `Scopes` (scopes.dfy): an AngularJS scope as a class with its own keys, a parent reference
  and an isolate flag.
- `Mounting` (mounting.dfy): the mount decisions shared by both components, and the two
  imperative steps that change a scope in place.
- `AngularTemplate` (angular_template.dfy) and `ReactAngular` (react_angular.dfy): props and
  `defaultProps`, `render`, and a component class whose `ComponentDidMount` assigns
  `this.$scope` and appends the template. The first file also holds the higher-order
  component.

Some calls reach code the model cannot see. Invoking a template function and `$controller`
are passed in as functions (`TemplateCall`, `ControllerCall`). The template cache is a map
from URL to value, and the parent scope is a parameter.

A few points of the code as written are kept faithfully:

- A template that is an empty string falls through to `templateUrl`.
- An explicit `scope={null}` is not replaced by the default, so it reuses the parent scope.
- A truthy child that is not an element (text, a number, `true`) makes building the error
  message call `map` on it. That is a TypeError, and the model returns it as an error.
  A falsy one (`''`, `0`, `false`, `null`) renders the wrapper.
- An array of children raises the error saying only one child is allowed, unless one of
  its entries is null or undefined (as `{cond ? <a/> : null}<b/>` gives): then reading that
  entry's `type` for the message is a TypeError, and the model returns that error instead.
- A child whose type is a component makes `isCustomComponent` call `indexOf` on a function.
  That is a TypeError, and the model returns it as an error.
- In the child branch, the wrapper attributes are not among the merged sources, so the
  merged classes replace the `wrapperAttrs` entry under the selected key.

## Model

| member | source | states |
|---|---|---|
| JsValues.IndexOf | src/angularTemplate.js:7 | `indexOf` returns -1 exactly when the character is absent; otherwise it returns the index of the first occurrence |
| JsValues.NatToDecimal | src/angularTemplate.js:96-97 | the string conversion of a number that `join` performs: decimal digits that denote exactly that number, with no leading zero |
| JsValues.TrimStartDropsOnlyLeadingBlanks | src/angularTemplate.js:98 | trimming the front removes a blank prefix and nothing else: the input is that prefix followed by the result |
| JsValues.TrimEndDropsOnlyTrailingBlanks | src/angularTemplate.js:98 | trimming the end removes a blank suffix and nothing else: the input is the result followed by that suffix |
| JsValues.Trim | src/angularTemplate.js:98 | the result has no whitespace at either end |
| JsValues.TrimIsInnerSlice | src/angularTemplate.js:97-98 | the input is a blank prefix, then the trimmed text, then a blank suffix: only the ends are removed |
| JsValues.TrimEmptyIffBlank | src/angularTemplate.js:98 | trimming yields "" exactly when the input is all whitespace |
| JsValues.TrimPadded | src/angularTemplate.js:98 | trimmed text padded with blanks on both sides trims back to itself exactly |
| JsValues.TrimIdempotent | src/angularTemplate.js:98 | trimming twice equals trimming once |
| ReactElements.FillDefaults | src/angularTemplate.js:172 | a prop that is undefined or missing takes the component's default; every other prop is kept as passed |
| ReactElements.CreateElement | src/angularTemplate.js:117-121 | the element has the given type; a tag element's props are exactly the config plus `children` when passed, and a component's are those completed with its `defaultProps` |
| ReactElements.CloneElement | src/angularTemplate.js:101-105 | the clone keeps the element's type; config keys override its props (an undefined config value takes the type's default), and its other props are kept |
| Scopes.Scope.New | src/angularTemplate.js:47 | `$new(isolate)` gives a fresh scope whose parent is this scope, with the isolate flag and no own keys |
| Scopes.Scope.Extend | src/angularTemplate.js:50 | `angular.extend` copies every key of the source over the scope's keys |
| Scopes.Scope.Assign | src/angularTemplate.js:67 | the scope gains exactly the one key, bound to the value |
| Mounting.ChooseScope | src/angularTemplate.js:47 | a falsy `scope` reuses the parent; a truthy one asks for a new child with the `isolate` flag |
| Mounting.IsolateOnlyForNewScope | src/reactAngular.js:21 | when the parent is reused, the isolate flag makes no difference |
| Mounting.ScopeExtension | src/angularTemplate.js:49-51 | the keys copied in are those of an object `scope`, and none otherwise |
| Mounting.ExtensionOnlyIntoNewScope | src/reactAngular.js:21-25 | keys are copied only from an object scope, which always gets a new child scope, never the parent |
| Mounting.ControllerKey | src/angularTemplate.js:59-68 | a controller key exists exactly when both `controller` and `controllerAs` are given, and it is `controllerAs` |
| Mounting.ControllerLocals | src/angularTemplate.js:60-64 | the controller receives every injected value plus `$scope` and `$element`, which override same-named injected values |
| Mounting.ScopeWrites | src/reactAngular.js:23-43 | the scope receives the keys of an object `scope`, plus `controllerAs` bound to the instance; the instance wins over a same-named key |
| Mounting.WritesInOrder | src/reactAngular.js:23-41 | applying the extension and then the controller key gives exactly the combined writes over the old keys |
| Mounting.NoControllerKeyWithoutControllerAs | src/reactAngular.js:33-43 | without `controller` or without `controllerAs`, only the extension is written and no controller key |
| Mounting.TemplateSource | src/angularTemplate.js:53 | a truthy `template` wins; otherwise a given `templateUrl` is looked up in the cache; otherwise the source is null |
| Mounting.ResolveTemplate | src/angularTemplate.js:53-57 | a function source is applied to `inject`, anything else is used unchanged; a URL missing from the cache gives undefined |
| Mounting.TemplateWinsOverUrl | src/reactAngular.js:27 | with a truthy `template`, neither the URL nor the cache affects the result |
| Mounting.InjectOnlyForFunctionTemplates | src/reactAngular.js:29-31 | `inject` and the template call matter only when the source is a function |
| Mounting.EnterScope | src/angularTemplate.js:47-51 | the chosen scope is the parent with the object's keys copied in, or a fresh child holding exactly those keys while the parent is unchanged |
| Mounting.BindController | src/angularTemplate.js:59-69 | the scope gains the controller instance under `controllerAs` when both are given, and is unchanged otherwise |
| AngularTemplate.WithDefaults | src/angularTemplate.js:139-145 | undefined props take the defaults `inject` {}, `isolate` false, `scope` true, `wrapperTag` 'div' and `wrapperAttrs` {}; given props are kept |
| AngularTemplate.DefaultScopeIsNewChild | src/angularTemplate.js:139-145 | by default a new, non-isolate child scope is created |
| AngularTemplate.NullScopeReusesParent | src/angularTemplate.js:47 | an explicit null `scope` is not defaulted and reuses the parent scope |
| AngularTemplate.IsCustomComponent | src/angularTemplate.js:6-8 | a tag is custom exactly when it contains '-' or its `is` prop is neither null nor undefined |
| AngularTemplate.ClassesKey | src/angularTemplate.js:94 | the class key is `class` for a custom component and `className` otherwise |
| AngularTemplate.ClassPart | src/angularTemplate.js:96 | a falsy class source counts as "", and a string source is used as is |
| AngularTemplate.MergeClasses | src/angularTemplate.js:95-99 | the merged value is undefined exactly when the joined sources are blank; otherwise it is a non-empty string with no whitespace at either end |
| AngularTemplate.MergeKeepsInnerText | src/angularTemplate.js:95-99 | the merged string (or "" when undefined) is the space-joined sources minus blank ends only: no deduplication and no collapsing |
| AngularTemplate.MergeAllThree | src/angularTemplate.js:111-115 | three clean sources give exactly "a b c", duplicates included |
| AngularTemplate.MergeOnlyClassName | src/angularTemplate.js:111-115 | with only `className` given, the merged value is exactly that class |
| AngularTemplate.MergeClassNameAndOwn | src/angularTemplate.js:95-99 | the component's class and the child's `className` are joined by a single space |
| AngularTemplate.ClassedAttrs | src/angularTemplate.js:101-105 | the classes and `ref` override same-named attributes; every other attribute passes through unchanged |
| AngularTemplate.Render | src/angularTemplate.js:84-122 | an array of children raises the one-child error, or a TypeError when an entry is null or undefined; a truthy child that is not an element (text, a number, `true`) or a component child raise a TypeError; one tag child is cloned with its own type; no child or a falsy one yields a `wrapperTag` element |
| AngularTemplate.RenderWrapper | src/angularTemplate.js:110-121 | without a child (or with a falsy one), the wrapper carries the merged classes under the key its tag selects, plus the ref and empty content; other wrapper attributes are untouched |
| AngularTemplate.RenderChild | src/angularTemplate.js:94-107 | the cloned child keeps its type and carries the merged classes under the key the child selects, plus the ref; wrapper attributes override its props and its other props are kept |
| AngularTemplate.DefaultWrapperIsDiv | src/angularTemplate.js:143 | with no child and no `wrapperTag`, the wrapper is a `div` |
| AngularTemplate.ParentScope | src/angularTemplate.js:39 | the context's `$scope` wins over the element's scope |
| AngularTemplate.Component.constructor | src/angularTemplate.js:139-145 | a new component has the defaulted props, no scope and nothing appended |
| AngularTemplate.Component.ComponentDidMount | src/angularTemplate.js:36-78 | `this.$scope` becomes the parent (extended in place) or a fresh child with the isolate flag holding exactly the writes; the template is appended only when truthy |
| AngularTemplate.WrappedName | src/angularTemplate.js:154 | a non-empty `displayName` wins over `name` |
| AngularTemplate.WrapperName | src/angularTemplate.js:155 | the display name is `ProvideAngularScope (`, the wrapped name, then `)` |
| AngularTemplate.ChildContext | src/angularTemplate.js:158-162 | the child context holds exactly `$scope`, taken from the props |
| AngularTemplate.ProvideScopeRender | src/angularTemplate.js:164-174 | it throws, naming the wrapper, exactly when `$scope` is falsy; otherwise it renders the wrapped component with every prop except `$scope`, unchanged unless undefined and defaulted by the wrapped component |
| AngularTemplate.ForwardedPropsRestore | src/angularTemplate.js:165-172 | apart from `$scope`, the wrapped component sees exactly the received props completed with its own defaults; `$scope` reaches it only as its own default |
| ReactAngular.WithDefaults | src/reactAngular.js:78-84 | undefined props take the defaults `inject` {}, `isolate` false, `scope` true, `tag` 'div' and `tagAttrs` {}; given props are kept |
| ReactAngular.DefaultScopeIsNewChild | src/reactAngular.js:78-84 | by default a new, non-isolate child scope is created |
| ReactAngular.Render | src/reactAngular.js:54-62 | the element is a `tag` element with `tagAttrs` spread first; `className`, `ref` and empty children override same-named entries, and the rest pass through |
| ReactAngular.DefaultTagIsDiv | src/reactAngular.js:82 | with no `tag`, the element is a `div` |
| ReactAngular.CheckTemplate | src/reactAngular.js:8-10 | mounting fails exactly when neither `template` nor `templateUrl` is truthy |
| ReactAngular.CheckedTemplateHasSource | src/reactAngular.js:8-27 | after the check, the template is `template` or the cache entry for `templateUrl`; it is null only when the cache holds null |
| ReactAngular.Component.constructor | src/reactAngular.js:78-84 | a new component has the defaulted props and nothing appended |
| ReactAngular.Component.ComponentDidMount | src/reactAngular.js:5-48 | without a template it fails and changes nothing; otherwise the returned scope is the extended parent or a fresh child holding exactly the writes, and the resolved template is always appended |

## Left out

- Template compilation and digest scheduling are AngularJS internals: `$compile(...)(scope)`, `$evalAsync` and `$applyAsync`.
- `$element.data('$scope', ...)` is DOM bookkeeping; only what is appended to the element is kept.
- `$injector.get` and `$controller` resolution are dependency injection. The controller instance is an opaque function of the controller and its locals.
- Anything the controller constructor or a template function does to the scope is not modelled; those are calls into code that is not visible.
- Finding the parent scope and injector through the DOM (`$element.scope()`, `injector()`) is not modelled. The element's scope is a parameter and is assumed to exist.
- The ngReact `reactComponent` directive, the `reactDirective` decorator and `ensureScopeAvailable` (src/angularTemplate.js:11-33) are framework link-function wrappers.
- Prototype inheritance between scopes is AngularJS's own contract. A scope's `vars` are its own keys only; `isolate` is a flag.
- `shouldComponentUpdate`, `contextTypes`, `childContextTypes`, `propTypes` validation and the merged `Wrapper.propTypes` (src/angularTemplate.js:177-181) are left out; they are React lifecycle and runtime-check plumbing.
- React's special handling of `key` and `ref` in `createElement` and `cloneElement` is not modelled. `ref` stays in the props map. The ref callbacks are function values with a fixed label; only their identity matters.
- AngularTemplate.Component.ComponentDidMount, ReactAngular.Component.ComponentDidMount: the template function and `$controller` are assumed not to throw. In the source, a throw from either ends the mount after the scope has been chosen and extended and before anything is appended; the model always completes the mount.
- AngularTemplate.WithDefaults, ReactAngular.WithDefaults, AngularTemplate.Render, ReactAngular.Render: an explicit `null` for a defaulted prop other than `scope` (`inject`, `isolate`, `wrapperTag`, `wrapperAttrs`, `tag`, `tagAttrs`) is not modelled; those props are either left out or given a value of their type. In the source such a null is kept rather than defaulted, so `wrapperTag={null}` or `wrapperAttrs={null}` without a child throws a TypeError (in `isCustomComponent`, or at the class read on src/angularTemplate.js:112 when the tag contains `-`), and `inject={null}` reaches a template function as null.
- Prop values outside their declared prop types are not modelled, such as a non-string `wrapperTag` or a non-object `inject`. The TypeErrors those would raise are not modelled either.
- Numbers are integers. NaN and the exponent notation JavaScript uses for very large numbers are not modelled.
