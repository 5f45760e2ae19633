/**
  The AngularTemplate component: it renders a wrapper element (or clones its one child) with
  merged CSS classes, and on mount compiles an AngularJS template against a parent, child or
  isolate scope. Also the scope-providing higher-order component defined beside it.
 */
module AngularTemplate {
  import opened Wrappers
  import opened JsValues
  import opened ReactElements
  import opened Scopes
  import opened Mounting

  /** `props.children`: none, one element, an array, or any other value (text, a number,
      a boolean, null), which is not an element */
  datatype Children =
    | NoChildren
    | OneChild(child: Element)
    | ManyChildren(elements: seq<Value>)
    | OtherChild(v: Value)

  /** The props as written at the use site; None or Undefined stands for a prop left out */
  datatype GivenProps = GivenProps(
    className: Value,
    children: Children,
    controller: Value,
    controllerAs: Option<string>,
    inject: Option<map<string, Value>>,
    isolate: Option<bool>,
    scope: Value,
    template: Value,
    templateUrl: Option<string>,
    wrapperTag: Option<string>,
    wrapperAttrs: Option<map<string, Value>>)

  /** The props the component sees, after React has filled in `defaultProps` */
  datatype Props = Props(
    className: Value,
    children: Children,
    controller: Value,
    controllerAs: Option<string>,
    inject: map<string, Value>,
    isolate: bool,
    scope: Value,
    template: Value,
    templateUrl: Option<string>,
    wrapperTag: string,
    wrapperAttrs: map<string, Value>)

  /** `defaultProps`: inject {}, isolate false, scope true, wrapperTag 'div', wrapperAttrs {};
      React substitutes a default only for a prop that is undefined, so an explicit null stays */
  function WithDefaults(g: GivenProps): (p: Props)
    ensures p.inject == (if g.inject.Some? then g.inject.value else map[])
    ensures p.isolate == (g.isolate == Some(true))
    ensures p.scope == (if g.scope.Undefined? then Bool(true) else g.scope)
    ensures p.wrapperTag == (if g.wrapperTag.Some? then g.wrapperTag.value else "div")
    ensures p.wrapperAttrs == (if g.wrapperAttrs.Some? then g.wrapperAttrs.value else map[])
    ensures p.className == g.className && p.children == g.children && p.controller == g.controller
    ensures p.controllerAs == g.controllerAs && p.template == g.template && p.templateUrl == g.templateUrl
  {
    Props(g.className, g.children, g.controller, g.controllerAs, g.inject.GetOr(map[]), g.isolate.GetOr(false),
          if g.scope.Undefined? then Bool(true) else g.scope, g.template, g.templateUrl,
          g.wrapperTag.GetOr("div"), g.wrapperAttrs.GetOr(map[]))
  }

  /** Left to its defaults, the component mounts a new, non-isolate child scope */
  lemma DefaultScopeIsNewChild(g: GivenProps)
    requires g.scope.Undefined? && g.isolate.None?
    ensures ChooseScope(WithDefaults(g).scope, WithDefaults(g).isolate) == NewChild(false)
  {
  }

  /** An explicit `scope={null}` is not replaced by the default and reuses the parent scope */
  lemma NullScopeReusesParent(g: GivenProps)
    requires g.scope.Null?
    ensures ChooseScope(WithDefaults(g).scope, WithDefaults(g).isolate) == ReuseParent
  {
  }

  // ---------------------------------------------------------------------------------------------
  // render

  datatype RenderError =
    | TooManyChildren(found: nat)   // the error saying only one child is allowed, with the number found
    | TagNameNotAString             // a component child has no tag name to search for '-': a TypeError
    | ChildrenNotAnArray            // a truthy non-element cannot be mapped over for the message: a TypeError
    | NullishChildInArray           // reading the type of a null or undefined array entry for the message: a TypeError

  /** The ref callback that captures the host DOM node */
  const MountRef := Fn("AngularTemplate mount ref")

  /** `isCustomComponent(tagName, props)`, taken from React's DOM component */
  function IsCustomComponent(tagName: string, props: map<string, Value>): (b: bool)
    ensures b <==> '-' in tagName || !IsNullish(Get(props, "is"))
  {
    IndexOf(tagName, '-') >= 0 || (Get(props, "is") != Null && Get(props, "is") != Undefined)
  }

  /** The prop that carries the classes: `class` for a custom element, `className` otherwise */
  function ClassesKey(tagName: string, props: map<string, Value>): (key: string)
    ensures key == "class" || key == "className"
    ensures key == "class" <==> IsCustomComponent(tagName, props)
  {
    if IsCustomComponent(tagName, props) then "class" else "className"
  }

  /** One class source as it enters the join: a falsy source is the empty string, anything
      else its string conversion */
  function ClassPart(v: Value): (s: string)
    ensures !Truthy(v) ==> s == ""
    ensures v.Str? ==> s == v.s
  {
    if Truthy(v) then ToJsString(v) else ""
  }

  /** The three class sources joined with single spaces, before trimming */
  function JoinedClasses(a: Value, b: Value, c: Value): string {
    ClassPart(a) + " " + ClassPart(b) + " " + ClassPart(c)
  }

  /** The three class sources joined by spaces and trimmed; a blank result means no class
      at all (undefined) */
  function MergeClasses(a: Value, b: Value, c: Value): (r: Value)
    ensures r.Undefined? || r.Str?
    ensures r.Undefined? <==> AllWhitespace(JoinedClasses(a, b, c))
    ensures r.Str? ==> r.s != "" && Trimmed(r.s)
  {
    var t := Trim(JoinedClasses(a, b, c));
    TrimEmptyIffBlank(JoinedClasses(a, b, c));
    if t == "" then Undefined else Str(t)
  }

  /** The merged value is the joined text minus blank ends: nothing inside is removed,
      deduplicated or collapsed */
  lemma MergeKeepsInnerText(a: Value, b: Value, c: Value)
    ensures var s := JoinedClasses(a, b, c); var k := LeadingWhitespace(s);
      var r := if MergeClasses(a, b, c).Str? then MergeClasses(a, b, c).s else "";
      && k + |r| <= |s|
      && s == s[..k] + r + s[k + |r|..]
      && AllWhitespace(s[..k]) && AllWhitespace(s[k + |r|..])
  {
    TrimIsInnerSlice(JoinedClasses(a, b, c));
  }

  predicate CleanClass(v: Value) {
    ClassPart(v) != "" && Trimmed(ClassPart(v))
  }

  /** Three clean sources are kept verbatim, space-separated, duplicates included */
  lemma MergeAllThree(a: Value, b: Value, c: Value)
    requires CleanClass(a) && CleanClass(b) && CleanClass(c)
    ensures MergeClasses(a, b, c) == Str(ClassPart(a) + " " + ClassPart(b) + " " + ClassPart(c))
  {
    var s := JoinedClasses(a, b, c);
    assert s[0] == ClassPart(a)[0];
    assert s[|s| - 1] == ClassPart(c)[|ClassPart(c)| - 1];
    TrimPadded([], s, []);
    assert [] + s + [] == s;
  }

  /** One clean source with the two others absent gives exactly that source */
  lemma MergeOnlyClassName(a: Value, b: Value, c: Value)
    requires CleanClass(a) && !Truthy(b) && !Truthy(c)
    ensures MergeClasses(a, b, c) == Str(ClassPart(a))
  {
    assert JoinedClasses(a, b, c) == [] + ClassPart(a) + "  ";
    TrimPadded([], ClassPart(a), "  ");
  }

  /** The component's class and the element's own `className` are joined by one space */
  lemma MergeClassNameAndOwn(a: Value, b: Value, c: Value)
    requires CleanClass(a) && CleanClass(b) && !Truthy(c)
    ensures MergeClasses(a, b, c) == Str(ClassPart(a) + " " + ClassPart(b))
  {
    var core := ClassPart(a) + " " + ClassPart(b);
    assert JoinedClasses(a, b, c) == [] + core + " ";
    assert core[0] == ClassPart(a)[0];
    assert core[|core| - 1] == ClassPart(b)[|ClassPart(b)| - 1];
    TrimPadded([], core, " ");
  }

  /** The config the element is built from: the given attributes, then the ref and the merged
      classes, which override same-named attributes */
  function ClassedAttrs(attrs: map<string, Value>, key: string, classes: Value): (config: map<string, Value>)
    requires key == "class" || key == "className"
    ensures config.Keys == attrs.Keys + {"ref", key}
    ensures config[key] == classes && config["ref"] == MountRef
    ensures forall k :: k in attrs && k != key && k != "ref" ==> config[k] == attrs[k]
  {
    attrs["ref" := MountRef][key := classes]
  }

  /** The element `render()` creates when there is no child to clone */
  function WrapperElement(p: Props): Element {
    var key := ClassesKey(p.wrapperTag, p.wrapperAttrs);
    var classes := MergeClasses(p.className, Get(p.wrapperAttrs, "className"), Get(p.wrapperAttrs, "class"));
    CreateElement(Tag(p.wrapperTag), ClassedAttrs(p.wrapperAttrs, key, classes), Some(Str("")))
  }

  /** Some entry of a children array is null or undefined */
  predicate HasNullish(elements: seq<Value>) {
    exists i :: 0 <= i < |elements| && IsNullish(elements[i])
  }

  /** `render()` */
  function Render(p: Props): (r: Result<Element, RenderError>)
    ensures r.Failure? <==> p.children.ManyChildren?
                            || (p.children.OneChild? && p.children.child.elementType.Composite?)
                            || (p.children.OtherChild? && Truthy(p.children.v))
    ensures p.children.ManyChildren? && HasNullish(p.children.elements) ==> r == Failure(NullishChildInArray)
    ensures p.children.ManyChildren? && !HasNullish(p.children.elements) ==>
      r == Failure(TooManyChildren(|p.children.elements|))
    ensures p.children.OtherChild? && Truthy(p.children.v) ==> r == Failure(ChildrenNotAnArray)
    ensures p.children.OneChild? && p.children.child.elementType.Composite? ==> r == Failure(TagNameNotAString)
    ensures p.children.NoChildren? || (p.children.OtherChild? && !Truthy(p.children.v)) ==>
      r.Success? && r.value.elementType == Tag(p.wrapperTag)
    ensures p.children.OneChild? && r.Success? ==> r.value.elementType == p.children.child.elementType
  {
    match p.children
    case ManyChildren(elements) =>
      if HasNullish(elements) then Failure(NullishChildInArray) else Failure(TooManyChildren(|elements|))
    case OtherChild(v) => if Truthy(v) then Failure(ChildrenNotAnArray) else Success(WrapperElement(p))
    case OneChild(child) =>
      (match child.elementType
       case Composite(_) => Failure(TagNameNotAString)
       case Tag(tagName) =>
         var key := ClassesKey(tagName, child.props);
         var classes := MergeClasses(p.className, Get(child.props, "className"), Get(child.props, "class"));
         Success(CloneElement(child, ClassedAttrs(p.wrapperAttrs, key, classes))))
    case NoChildren => Success(WrapperElement(p))
  }

  /** Without children (or with a falsy one: '', 0, false, null): a `wrapperTag` element whose
      class key follows the tag, carrying the merged classes, the ref and empty content over
      the untouched other wrapper attributes */
  lemma RenderWrapper(p: Props)
    requires p.children.NoChildren? || (p.children.OtherChild? && !Truthy(p.children.v))
    ensures var e := Render(p).value;
      var key := if '-' in p.wrapperTag || !IsNullish(Get(p.wrapperAttrs, "is")) then "class" else "className";
      && e.elementType == Tag(p.wrapperTag)
      && e.props.Keys == p.wrapperAttrs.Keys + {key, "ref", "children"}
      && e.props[key] == MergeClasses(p.className, Get(p.wrapperAttrs, "className"), Get(p.wrapperAttrs, "class"))
      && e.props["ref"] == MountRef
      && e.props["children"] == Str("")
      && (forall k :: k in p.wrapperAttrs && k !in {key, "ref", "children"} ==> e.props[k] == p.wrapperAttrs[k])
  {
  }

  /** With one tag child: a clone of it, whose class key follows the child, carrying the merged
      classes and the ref; the wrapper attributes override the child's props, and the child's
      other props are kept */
  lemma RenderChild(p: Props)
    requires p.children.OneChild? && p.children.child.elementType.Tag?
    ensures var c := p.children.child;
      var e := Render(p).value;
      var key := if '-' in c.elementType.tagName || !IsNullish(Get(c.props, "is")) then "class" else "className";
      && e.elementType == c.elementType
      && e.props.Keys == c.props.Keys + p.wrapperAttrs.Keys + {key, "ref"}
      && e.props[key] == MergeClasses(p.className, Get(c.props, "className"), Get(c.props, "class"))
      && e.props["ref"] == MountRef
      && (forall k :: k in p.wrapperAttrs && k !in {key, "ref"} ==> e.props[k] == p.wrapperAttrs[k])
      && (forall k :: k in c.props && k !in p.wrapperAttrs && k !in {key, "ref"} ==> e.props[k] == c.props[k])
  {
  }

  /** Left to its defaults and without children, the wrapper is a `div` */
  lemma DefaultWrapperIsDiv(g: GivenProps)
    requires g.wrapperTag.None? && g.children.NoChildren?
    ensures Render(WithDefaults(g)).Success?
    ensures Render(WithDefaults(g)).value.elementType == Tag("div")
  {
  }

  // ---------------------------------------------------------------------------------------------
  // componentDidMount

  /** The parent scope: the one passed down through React context when there is one,
      otherwise the scope AngularJS attached to the host element */
  function ParentScope(contextScope: Scope?, elementScope: Scope): (s: Scope)
    ensures contextScope != null ==> s == contextScope
    ensures contextScope == null ==> s == elementScope
  {
    if contextScope != null then contextScope else elementScope
  }

  /** What `componentDidMount` writes into the scope it chose */
  function MountWrites(p: Props, instantiate: ControllerCall): map<string, Value> {
    ScopeWrites(p.scope, p.controller, p.controllerAs, instantiate(p.controller, ControllerLocals(p.inject)))
  }

  /** The template `componentDidMount` resolves; appended only when truthy */
  function MountTemplate(p: Props, cache: map<string, Value>, call: TemplateCall): Value {
    ResolveTemplate(p.template, p.templateUrl, cache, p.inject, call)
  }

  class Component {
    const props: Props
    /** `this.$scope`: the scope the template was compiled against, once mounted */
    var scope: Scope?
    /** What has been appended to the host element, in order */
    var appended: seq<Value>

    /** Creating the element: React fills in `defaultProps` */
    constructor (given: GivenProps)
      ensures props == WithDefaults(given) && scope == null && appended == []
    {
      props := WithDefaults(given);
      scope := null;
      appended := [];
    }

    /** `componentDidMount()`: choose the scope, copy an object `scope` into it, resolve the
        template, instantiate the controller and store it under `controllerAs`, append the
        template when there is one */
    method ComponentDidMount(contextScope: Scope?, elementScope: Scope, cache: map<string, Value>,
                             call: TemplateCall, instantiate: ControllerCall)
      modifies this, ParentScope(contextScope, elementScope)
      ensures var parent := ParentScope(contextScope, elementScope);
        match ChooseScope(props.scope, props.isolate)
        case ReuseParent =>
          scope == parent && parent.vars == old(parent.vars) + MountWrites(props, instantiate)
        case NewChild(isolate) =>
          && scope != null && fresh(scope)
          && scope.parent == parent && scope.isolate == isolate
          && scope.vars == MountWrites(props, instantiate)
          && parent.vars == old(parent.vars)
      ensures var t := MountTemplate(props, cache, call);
        appended == old(appended) + (if Truthy(t) then [t] else [])
    {
      var parent := ParentScope(contextScope, elementScope);
      ghost var base := if Truthy(props.scope) then map[] else parent.vars;
      var s := EnterScope(parent, props.scope, props.isolate);
      scope := s;

      var t := ResolveTemplate(props.template, props.templateUrl, cache, props.inject, call);
      assert t == MountTemplate(props, cache, call);

      BindController(s, props.controller, props.controllerAs, props.inject, instantiate);
      WritesInOrder(base, props.scope, props.controller, props.controllerAs,
                    instantiate(props.controller, ControllerLocals(props.inject)));
      assert s.vars == base + MountWrites(props, instantiate);

      if Truthy(t) {
        appended := appended + [t];
      }
    }
  }

  // ---------------------------------------------------------------------------------------------
  // provideAngularScopeHOC

  datatype ScopeError = ScopeNotPassed(wrapperName: string)   // the error naming the wrapper that received no scope

  /** The wrapped component's name: its display name when that is non-empty, otherwise its
      function name */
  function WrappedName(w: ComponentType): (n: string)
    ensures Given(w.displayName) ==> n == w.displayName.value
    ensures !Given(w.displayName) ==> n == w.name
  {
    if Given(w.displayName) then w.displayName.value else w.name
  }

  const WrapperPrefix := "ProvideAngularScope ("

  /** The wrapper's display name: `ProvideAngularScope (<name>)` */
  function WrapperName(w: ComponentType): (n: string)
    ensures |n| == |WrapperPrefix| + |WrappedName(w)| + 1
    ensures n[..|WrapperPrefix|] == WrapperPrefix && n[|n| - 1] == ')'
    ensures n[|WrapperPrefix|..|n| - 1] == WrappedName(w)
  {
    WrapperPrefix + WrappedName(w) + ")"
  }

  /** `getChildContext()`: the `$scope` prop, passed down to AngularTemplate as context */
  function ChildContext(props: map<string, Value>): (ctx: map<string, Value>)
    ensures ctx.Keys == {"$scope"} && ctx["$scope"] == Get(props, "$scope")
  {
    map["$scope" := Get(props, "$scope")]
  }

  /** The wrapper's `render()`: throws without a `$scope` prop, otherwise renders the wrapped
      component with every other prop, which React completes with the wrapped component's
      `defaultProps` */
  function ProvideScopeRender(w: ComponentType, props: map<string, Value>): (r: Result<Element, ScopeError>)
    ensures r.Failure? <==> !Truthy(Get(props, "$scope"))
    ensures r.Failure? ==> r.error == ScopeNotPassed(WrapperName(w))
    ensures r.Success? ==> r.value.elementType == Composite(w)
    ensures r.Success? ==> r.value.props.Keys == (props.Keys - {"$scope"}) + w.defaultProps.Keys
    ensures r.Success? ==> forall k :: k in props && k != "$scope" && !(k in w.defaultProps && props[k] == Undefined) ==>
      r.value.props[k] == props[k]
    ensures r.Success? ==> forall k :: k in w.defaultProps && (k == "$scope" || Get(props, k) == Undefined) ==>
      r.value.props[k] == w.defaultProps[k]
  {
    var forwarded := props - {"$scope"};
    if !Truthy(Get(props, "$scope")) then Failure(ScopeNotPassed(WrapperName(w)))
    else Success(CreateElement(Composite(w), forwarded, None))
  }

  /** Nothing but `$scope` is lost: apart from `$scope`, the wrapped component sees exactly the
      props the wrapper received, completed with its own defaults; `$scope` reaches it only
      as a default of its own */
  lemma ForwardedPropsRestore(w: ComponentType, props: map<string, Value>)
    requires ProvideScopeRender(w, props).Success?
    ensures var f := ProvideScopeRender(w, props).value.props;
      && f - {"$scope"} == FillDefaults(w.defaultProps, props) - {"$scope"}
      && ("$scope" in f <==> "$scope" in w.defaultProps)
  {
    var f := ProvideScopeRender(w, props).value.props;
    var g := FillDefaults(w.defaultProps, props);
    assert (f - {"$scope"}).Keys == (g - {"$scope"}).Keys;
  }
}
