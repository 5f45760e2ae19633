/**
  The earlier ReactAngular component: it renders an empty `tag` element and on mount
  compiles a required AngularJS template into it against a parent, child or isolate scope.
 */
module ReactAngular {
  import opened Wrappers
  import opened JsValues
  import opened ReactElements
  import opened Scopes
  import opened Mounting

  /** The props as written at the use site; None or Undefined stands for a prop left out */
  datatype GivenProps = GivenProps(
    className: Value,
    controller: Value,
    controllerAs: Option<string>,
    inject: Option<map<string, Value>>,
    isolate: Option<bool>,
    scope: Value,
    tag: Option<string>,
    tagAttrs: Option<map<string, Value>>,
    template: Value,
    templateUrl: Option<string>)

  /** The props the component sees, after React has filled in `defaultProps` */
  datatype Props = Props(
    className: Value,
    controller: Value,
    controllerAs: Option<string>,
    inject: map<string, Value>,
    isolate: bool,
    scope: Value,
    tag: string,
    tagAttrs: map<string, Value>,
    template: Value,
    templateUrl: Option<string>)

  /** `defaultProps`: inject {}, isolate false, scope true, tag 'div', tagAttrs {};
      React substitutes a default only for a prop that is undefined */
  function WithDefaults(g: GivenProps): (p: Props)
    ensures p.inject == (if g.inject.Some? then g.inject.value else map[])
    ensures p.isolate == (g.isolate == Some(true))
    ensures p.scope == (if g.scope.Undefined? then Bool(true) else g.scope)
    ensures p.tag == (if g.tag.Some? then g.tag.value else "div")
    ensures p.tagAttrs == (if g.tagAttrs.Some? then g.tagAttrs.value else map[])
    ensures p.className == g.className && p.controller == g.controller && p.controllerAs == g.controllerAs
    ensures p.template == g.template && p.templateUrl == g.templateUrl
  {
    Props(g.className, g.controller, g.controllerAs, g.inject.GetOr(map[]), g.isolate.GetOr(false),
          if g.scope.Undefined? then Bool(true) else g.scope, g.tag.GetOr("div"), g.tagAttrs.GetOr(map[]),
          g.template, g.templateUrl)
  }

  /** Left to its defaults, the component mounts a new, non-isolate child scope */
  lemma DefaultScopeIsNewChild(g: GivenProps)
    requires g.scope.Undefined? && g.isolate.None?
    ensures ChooseScope(WithDefaults(g).scope, WithDefaults(g).isolate) == NewChild(false)
  {
  }

  // ---------------------------------------------------------------------------------------------
  // render

  /** The ref callback that captures the host DOM node */
  const MountRef := Fn("ReactAngular mount ref")

  /** `render()`: a `tag` element over `tagAttrs`, with the ref, the class name and empty content
      on top */
  function Render(p: Props): (e: Element)
    ensures e.elementType == Tag(p.tag)
    ensures e.props.Keys == p.tagAttrs.Keys + {"ref", "className", "children"}
    ensures e.props["className"] == p.className && e.props["ref"] == MountRef && e.props["children"] == Str("")
    ensures forall k :: k in p.tagAttrs && k !in {"ref", "className", "children"} ==> e.props[k] == p.tagAttrs[k]
  {
    CreateElement(Tag(p.tag), p.tagAttrs["ref" := MountRef]["className" := p.className], Some(Str("")))
  }

  /** Left to its defaults, the element is a `div` */
  lemma DefaultTagIsDiv(g: GivenProps)
    requires g.tag.None?
    ensures Render(WithDefaults(g)).elementType == Tag("div")
  {
  }

  // ---------------------------------------------------------------------------------------------
  // componentDidMount

  datatype MountError = NeedsTemplate   // the error saying neither a template nor a template URL was given

  /** The mount precondition: at least one of `template` and `templateUrl` must be truthy,
      otherwise mounting throws */
  function CheckTemplate(p: Props): (r: Option<MountError>)
    ensures r.Some? <==> !Truthy(p.template) && !Given(p.templateUrl)
    ensures r.Some? ==> r.value == NeedsTemplate
  {
    if !Truthy(p.template) && !Given(p.templateUrl) then Some(NeedsTemplate) else None
  }

  /** Once the check passes, the template always comes from `template` or from the cache
      entry for `templateUrl`, never from the "neither" case */
  lemma CheckedTemplateHasSource(p: Props, cache: map<string, Value>)
    requires CheckTemplate(p).None?
    ensures var src := TemplateSource(p.template, p.templateUrl, cache);
      src != Null || (Given(p.templateUrl) && p.templateUrl.value in cache && cache[p.templateUrl.value] == Null)
    ensures var src := TemplateSource(p.template, p.templateUrl, cache);
      src == p.template || (Given(p.templateUrl) && src == Get(cache, p.templateUrl.value))
  {
  }

  /** What `componentDidMount` writes into the scope it chose */
  function MountWrites(p: Props, instantiate: ControllerCall): map<string, Value> {
    ScopeWrites(p.scope, p.controller, p.controllerAs, instantiate(p.controller, ControllerLocals(p.inject)))
  }

  /** The template `componentDidMount` resolves and appends */
  function MountTemplate(p: Props, cache: map<string, Value>, call: TemplateCall): Value {
    ResolveTemplate(p.template, p.templateUrl, cache, p.inject, call)
  }

  class Component {
    const props: Props
    /** What has been appended to the host element, in order */
    var appended: seq<Value>

    /** Creating the element: React fills in `defaultProps` */
    constructor (given: GivenProps)
      ensures props == WithDefaults(given) && appended == []
    {
      props := WithDefaults(given);
      appended := [];
    }

    /** `componentDidMount()`: throw without a template; otherwise choose the scope, copy an
        object `scope` into it, resolve the template, instantiate the controller and store it
        under `controllerAs`, and append the template. The result is the scope the element is
        compiled against. */
    method ComponentDidMount(elementScope: Scope, cache: map<string, Value>,
                             call: TemplateCall, instantiate: ControllerCall)
      returns (r: Result<Scope, MountError>)
      modifies this, elementScope
      ensures CheckTemplate(props).Some? ==>
        && r == Failure(NeedsTemplate)
        && elementScope.vars == old(elementScope.vars) && appended == old(appended)
      ensures CheckTemplate(props).None? ==>
        && r.Success?
        && match ChooseScope(props.scope, props.isolate)
           case ReuseParent =>
             r.value == elementScope && elementScope.vars == old(elementScope.vars) + MountWrites(props, instantiate)
           case NewChild(isolate) =>
             && fresh(r.value)
             && r.value.parent == elementScope && r.value.isolate == isolate
             && r.value.vars == MountWrites(props, instantiate)
             && elementScope.vars == old(elementScope.vars)
      ensures CheckTemplate(props).None? ==> appended == old(appended) + [MountTemplate(props, cache, call)]
    {
      if !Truthy(props.template) && !Given(props.templateUrl) {
        return Failure(NeedsTemplate);
      }

      ghost var base := if Truthy(props.scope) then map[] else elementScope.vars;
      var s := EnterScope(elementScope, props.scope, props.isolate);

      var t := ResolveTemplate(props.template, props.templateUrl, cache, props.inject, call);
      assert t == MountTemplate(props, cache, call);

      BindController(s, props.controller, props.controllerAs, props.inject, instantiate);
      WritesInOrder(base, props.scope, props.controller, props.controllerAs,
                    instantiate(props.controller, ControllerLocals(props.inject)));
      assert s.vars == base + MountWrites(props, instantiate);

      appended := appended + [t];
      r := Success(s);
    }
  }
}
