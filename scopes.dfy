/**
  AngularJS scopes, reduced to what the components do with them: create a child scope
  (`$new(isolate)`), copy keys in (`angular.extend`) and assign one key. Reading a key
  through the prototype chain is not modelled; a scope's own keys are `vars`.
 */
module Scopes {
  import opened JsValues

  class Scope {
    /** The scope's own properties */
    var vars: map<string, Value>
    /** The scope it was created from (`$parent`); null for a root scope */
    const parent: Scope?
    /** Whether it was created as an isolate scope */
    const isolate: bool

    constructor Child(p: Scope, isolate: bool)
      ensures vars == map[] && parent == p && this.isolate == isolate
    {
      vars := map[];
      parent := p;
      this.isolate := isolate;
    }

    /** `scope.$new(isolate)`: a fresh child scope; this scope does not change */
    method New(isolate: bool) returns (child: Scope)
      ensures fresh(child)
      ensures child.parent == this && child.isolate == isolate && child.vars == map[]
    {
      child := new Scope.Child(this, isolate);
    }

    /** `angular.extend(scope, src)`: every key of `src` is copied in, overwriting */
    method Extend(src: map<string, Value>)
      modifies this
      ensures vars == old(vars) + src
    {
      vars := vars + src;
    }

    /** Assigning one property of the scope */
    method Assign(key: string, v: Value)
      modifies this
      ensures vars == old(vars)[key := v]
    {
      vars := vars[key := v];
    }
  }
}
