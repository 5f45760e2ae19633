/**
  React elements as the components build them: a type (a DOM or custom tag name, or a
  component) and a props object. `createElement` and `cloneElement` are modelled as the
  prop merges they perform.
 */
module ReactElements {
  import opened Wrappers
  import opened JsValues

  /** A component class or function: its name, and the `defaultProps` React fills in for it */
  datatype ComponentType = ComponentType(displayName: Option<string>, name: string, defaultProps: map<string, Value>)

  /** `element.type`: a tag name string, or a component */
  datatype ElementType = Tag(tagName: string) | Composite(component: ComponentType)

  datatype Element = Element(elementType: ElementType, props: map<string, Value>)

  /** The `defaultProps` of an element type; a tag name has none */
  function TypeDefaults(t: ElementType): map<string, Value> {
    if t.Composite? then t.component.defaultProps else map[]
  }

  /** React's default resolution: every prop that is undefined, or missing, takes the type's
      default for it; props the defaults do not mention, and props not undefined, are kept */
  function FillDefaults(defaults: map<string, Value>, props: map<string, Value>): (r: map<string, Value>)
    ensures r.Keys == props.Keys + defaults.Keys
    ensures forall k :: k in defaults && Get(props, k) == Undefined ==> r[k] == defaults[k]
    ensures forall k :: k in props && !(k in defaults && props[k] == Undefined) ==> r[k] == props[k]
  {
    map k | k in props.Keys + defaults.Keys :: if k in defaults && Get(props, k) == Undefined then defaults[k] else props[k]
  }

  /** The props `createElement` builds before defaults: the config, with `children` set to the
      children argument when one is passed */
  function ConfigProps(config: map<string, Value>, children: Option<Value>): (props: map<string, Value>)
    ensures children.None? ==> props == config
    ensures children.Some? ==> props.Keys == config.Keys + {"children"} && props["children"] == children.value
    ensures forall k :: k in config && k != "children" ==> k in props && props[k] == config[k]
  {
    if children.Some? then config["children" := children.value] else config
  }

  /** `React.createElement(type, config, children?)`: the config and children, then the
      type's `defaultProps` for whatever is undefined; a tag name gets the config as is */
  function CreateElement(t: ElementType, config: map<string, Value>, children: Option<Value>): (e: Element)
    ensures e.elementType == t
    ensures t.Tag? ==> e.props == ConfigProps(config, children)
    ensures t.Composite? ==> e.props == FillDefaults(t.component.defaultProps, ConfigProps(config, children))
  {
    var props := ConfigProps(config, children);
    Element(t, if t.Tag? then props else FillDefaults(t.component.defaultProps, props))
  }

  /** `React.cloneElement(element, config)`: same type, the element's own props overlaid by the
      config, where a config value that is undefined takes the type's default instead */
  function CloneElement(e: Element, config: map<string, Value>): (c: Element)
    ensures c.elementType == e.elementType
    ensures c.props.Keys == e.props.Keys + config.Keys
    ensures forall k :: k in config && !(k in TypeDefaults(e.elementType) && config[k] == Undefined) ==> c.props[k] == config[k]
    ensures forall k :: k in config && k in TypeDefaults(e.elementType) && config[k] == Undefined ==>
      c.props[k] == TypeDefaults(e.elementType)[k]
    ensures forall k :: k in e.props && k !in config ==> c.props[k] == e.props[k]
  {
    var d := TypeDefaults(e.elementType);
    var overlay := if e.elementType.Tag? then config
                   else map k | k in config :: if k in d && config[k] == Undefined then d[k] else config[k];
    Element(e.elementType, e.props + overlay)
  }
}
