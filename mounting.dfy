/**
  The decisions `componentDidMount` makes before it hands over to AngularJS, shared by both
  components: which scope the template is compiled against, what is written into it, which
  template text is appended, and what the controller is given. The framework calls around
  them (`$compile`, `$injector`, digest scheduling) are outside the model; invoking a template
  function and instantiating a controller are calls into code the model cannot see, and are
  passed in as functions.
 */
module Mounting {
  import opened Wrappers
  import opened JsValues
  import opened Scopes

  /** A value in the locals handed to `$controller`: an injected value, or the component's
      own scope or host element */
  datatype Local = Injected(v: Value) | ScopeLocal | ElementLocal

  /** Calling a function template with the injected values */
  type TemplateCall = (Value, map<string, Value>) -> Value

  /** `$controller(controller, locals)`: the controller instance it returns */
  type ControllerCall = (Value, map<string, Local>) -> Value

  /** Truthiness of an optional string prop: given and not empty */
  predicate Given(s: Option<string>) {
    s.Some? && s.value != ""
  }

  /** The scope the component compiles its template against */
  datatype ScopeChoice = ReuseParent | NewChild(isolate: bool)

  /** A truthy `scope` prop asks for a new child scope (isolate or not); a falsy one reuses
      the parent */
  function ChooseScope(scope: Value, isolate: bool): (c: ScopeChoice)
    ensures c == ReuseParent <==> !Truthy(scope)
    ensures c != ReuseParent ==> c == NewChild(isolate)
  {
    if Truthy(scope) then NewChild(isolate) else ReuseParent
  }

  /** Without a new scope the isolate flag is never consulted */
  lemma IsolateOnlyForNewScope(scope: Value, i1: bool, i2: bool)
    requires !Truthy(scope)
    ensures ChooseScope(scope, i1) == ChooseScope(scope, i2) == ReuseParent
  {
  }

  /** The keys copied into the chosen scope: those of a `scope` prop that is an object, none otherwise */
  function ScopeExtension(scope: Value): (m: map<string, Value>)
    ensures IsObject(scope) ==> m == scope.fields
    ensures !IsObject(scope) ==> m == map[]
  {
    if IsObject(scope) then scope.fields else map[]
  }

  /** An object `scope` is truthy, so its keys always go into a new child scope, never into the parent */
  lemma ExtensionOnlyIntoNewScope(scope: Value, isolate: bool)
    requires ScopeExtension(scope) != map[]
    ensures ChooseScope(scope, isolate) == NewChild(isolate)
  {
  }

  /** The key the controller instance is stored under: `controllerAs`, when both it and the
      controller are given */
  function ControllerKey(controller: Value, controllerAs: Option<string>): (k: Option<string>)
    ensures k.Some? <==> Truthy(controller) && Given(controllerAs)
    ensures k.Some? ==> k == controllerAs
  {
    if Truthy(controller) && Given(controllerAs) then controllerAs else None
  }

  /** The locals the controller is instantiated with: the injected values, overridden by the
      component's scope and host element */
  function ControllerLocals(inject: map<string, Value>): (m: map<string, Local>)
    ensures m.Keys == inject.Keys + {"$scope", "$element"}
    ensures m["$scope"] == ScopeLocal && m["$element"] == ElementLocal
    ensures forall k :: k in inject && k != "$scope" && k != "$element" ==> m[k] == Injected(inject[k])
  {
    var injected := map k | k in inject :: Injected(inject[k]);
    injected["$scope" := ScopeLocal]["$element" := ElementLocal]
  }

  /** Everything the mount writes into the chosen scope, in the order it is written: the keys of
      an object `scope`, then the controller instance under `controllerAs` */
  function ScopeWrites(scope: Value, controller: Value, controllerAs: Option<string>, instance: Value): (w: map<string, Value>)
    ensures var key := ControllerKey(controller, controllerAs);
      && w.Keys == ScopeExtension(scope).Keys + (if key.Some? then {key.value} else {})
      && (key.Some? ==> w[key.value] == instance)
      && (forall k :: k in ScopeExtension(scope) && key != Some(k) ==> w[k] == ScopeExtension(scope)[k])
  {
    var key := ControllerKey(controller, controllerAs);
    var ext := ScopeExtension(scope);
    if key.Some? then ext[key.value := instance] else ext
  }

  /** Writing the extension and then the controller key, one after the other, lands
      exactly the writes above on top of what the scope held */
  lemma WritesInOrder(base: map<string, Value>, scope: Value, controller: Value, controllerAs: Option<string>, instance: Value)
    ensures var key := ControllerKey(controller, controllerAs);
      base + ScopeWrites(scope, controller, controllerAs, instance)
        == if key.Some? then (base + ScopeExtension(scope))[key.value := instance] else base + ScopeExtension(scope)
  {
  }

  /** Without a controller or without `controllerAs`, no controller key is written */
  lemma NoControllerKeyWithoutControllerAs(scope: Value, controller: Value, controllerAs: Option<string>, instance: Value)
    requires !Truthy(controller) || !Given(controllerAs)
    ensures ScopeWrites(scope, controller, controllerAs, instance) == ScopeExtension(scope)
  {
  }

  /** Where the template comes from: a truthy `template` prop first, else the template
      cache entry for a non-empty `templateUrl` (undefined when missing), else null */
  function TemplateSource(template: Value, templateUrl: Option<string>, cache: map<string, Value>): (src: Value)
    ensures Truthy(template) ==> src == template
    ensures !Truthy(template) && Given(templateUrl) ==> src == Get(cache, templateUrl.value)
    ensures !Truthy(template) && !Given(templateUrl) ==> src == Null
  {
    if Truthy(template) then template
    else if Given(templateUrl) then Get(cache, templateUrl.value)
    else Null
  }

  /** The template actually used: a function source is applied to `inject`, anything else is used as is */
  function ResolveTemplate(template: Value, templateUrl: Option<string>, cache: map<string, Value>,
                           inject: map<string, Value>, call: TemplateCall): (t: Value)
    ensures IsFunction(template) ==> t == call(template, inject)
    ensures Truthy(template) && !IsFunction(template) ==> t == template
    ensures !Truthy(template) && !Given(templateUrl) ==> t == Null
    ensures !Truthy(template) && Given(templateUrl) && templateUrl.value !in cache ==> t == Undefined
    ensures !Truthy(template) && Given(templateUrl) && templateUrl.value in cache ==>
      var cached := cache[templateUrl.value];
      t == if IsFunction(cached) then call(cached, inject) else cached
  {
    var src := TemplateSource(template, templateUrl, cache);
    if IsFunction(src) then call(src, inject) else src
  }

  /** A truthy `template` wins: neither the URL nor the cache is consulted */
  lemma TemplateWinsOverUrl(template: Value, u1: Option<string>, u2: Option<string>,
                            c1: map<string, Value>, c2: map<string, Value>,
                            inject: map<string, Value>, call: TemplateCall)
    requires Truthy(template)
    ensures ResolveTemplate(template, u1, c1, inject, call) == ResolveTemplate(template, u2, c2, inject, call)
  {
  }

  /** The injected values and the template call matter only when the template is a function */
  lemma InjectOnlyForFunctionTemplates(template: Value, templateUrl: Option<string>, cache: map<string, Value>,
                                       i1: map<string, Value>, i2: map<string, Value>,
                                       call1: TemplateCall, call2: TemplateCall)
    requires !IsFunction(TemplateSource(template, templateUrl, cache))
    ensures ResolveTemplate(template, templateUrl, cache, i1, call1) == ResolveTemplate(template, templateUrl, cache, i2, call2)
  {
  }

  /** Enter the scope `ChooseScope` selects, creating the child when one is asked for, then
      copy the keys of an object `scope` prop into it */
  method EnterScope(parent: Scope, scope: Value, isolate: bool) returns (s: Scope)
    modifies parent
    ensures match ChooseScope(scope, isolate)
      case ReuseParent =>
        s == parent && parent.vars == old(parent.vars) + ScopeExtension(scope)
      case NewChild(iso) =>
        && fresh(s) && s.parent == parent && s.isolate == iso
        && s.vars == ScopeExtension(scope) && parent.vars == old(parent.vars)
  {
    if Truthy(scope) {
      s := parent.New(isolate);
    } else {
      s := parent;
    }
    if IsObject(scope) {
      s.Extend(scope.fields);
    }
  }

  /** With a truthy `controller`, instantiate it with the mount locals; store the instance in
      the scope under `controllerAs` when that name is non-empty */
  method BindController(s: Scope, controller: Value, controllerAs: Option<string>,
                        inject: map<string, Value>, instantiate: ControllerCall)
    modifies s
    ensures var key := ControllerKey(controller, controllerAs);
      s.vars == if key.Some? then old(s.vars)[key.value := instantiate(controller, ControllerLocals(inject))]
                else old(s.vars)
  {
    if Truthy(controller) {
      var instance := instantiate(controller, ControllerLocals(inject));
      if Given(controllerAs) {
        s.Assign(controllerAs.value, instance);
      }
    }
  }
}
